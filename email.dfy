/**
 * The e-mail test of the contact form: the unanchored regular expression
 * `\S+@\S+\.\S+` applied with `RegExp.prototype.test`.
 */
module Email {
  import opened Text

  /** `s[a..e]` spells x "@" y "." z, with the '@' at `i` and the '.' at `j`,
      where x, y and z are non-empty runs of non-space characters. */
  ghost predicate MatchesSlice(s: string, a: int, i: int, j: int, e: int) {
    0 <= a < i && i + 1 < j && j + 1 < e <= |s|
    && s[i] == '@' && s[j] == '.'
    && NoSpace(s[a..i]) && NoSpace(s[i + 1..j]) && NoSpace(s[j + 1..e])
  }

  /** The literal reading of the expression: since it is unanchored, a match
      may be any slice of `s`. */
  ghost predicate RegexMatches(s: string) {
    exists a, i, j, e :: MatchesSlice(s, a, i, j, e)
  }

  /** An '@' at `i` with a non-space just before it and a '.' at `j` with a
      non-space just after it, separated by at least one character and by
      non-spaces only. */
  predicate MatchesAround(s: string, i: int, j: int) {
    0 < i && i + 1 < j && j + 1 < |s|
    && s[i] == '@' && s[j] == '.'
    && !IsSpace(s[i - 1]) && NoSpace(s[i + 1..j]) && !IsSpace(s[j + 1])
  }

  /** The decision procedure the model uses. */
  predicate HasEmailShape(s: string) {
    exists i, j | 0 < i < |s| && i + 1 < j < |s| - 1 :: MatchesAround(s, i, j)
  }

  /** The decision procedure agrees with the regular expression on every string. */
  lemma ShapeIffRegex(s: string)
    ensures HasEmailShape(s) <==> RegexMatches(s)
  {
    if HasEmailShape(s) {
      var i, j :| MatchesAround(s, i, j);
      assert MatchesAround(s, i, j);
      assert s[i - 1..i] == [s[i - 1]];
      assert s[j + 1..j + 2] == [s[j + 1]];
      assert MatchesSlice(s, i - 1, i, j, j + 2);
    }
    if RegexMatches(s) {
      var a, i, j, e :| MatchesSlice(s, a, i, j, e);
      assert MatchesSlice(s, a, i, j, e);
      assert s[i - 1] == s[a..i][i - 1 - a];
      assert s[j + 1] == s[j + 1..e][0];
      assert MatchesAround(s, i, j);
    }
  }

  /** A match inside a slice of `s` is a match in `s`. */
  lemma MatchInSlice(s: string, k: nat, t: string, i: int, j: int)
    requires k + |t| <= |s| && t == s[k..k + |t|]
    requires MatchesAround(t, i, j)
    ensures MatchesAround(s, k + i, k + j)
  {
    forall m | k + i + 1 <= m < k + j ensures !IsSpace(s[m]) {
      assert s[m] == t[m - k] == t[i + 1..j][m - k - i - 1];
    }
    assert NoSpace(s[k + i + 1..k + j]);
    assert s[k + i] == t[i] && s[k + j] == t[j];
    assert s[k + i - 1] == t[i - 1] && s[k + j + 1] == t[j + 1];
  }

  /** A match in `s` cannot touch an all-space prefix or suffix, so it is a
      match in the slice between them. */
  lemma MatchAvoidsSpace(s: string, k: nat, t: string, i: int, j: int)
    requires k + |t| <= |s| && t == s[k..k + |t|]
    requires AllSpace(s[..k]) && AllSpace(s[k + |t|..])
    requires MatchesAround(s, i, j)
    ensures MatchesAround(t, i - k, j - k)
  {
    forall m | i - k + 1 <= m < j - k ensures !IsSpace(t[m]) {
      assert t[m] == s[m + k] == s[i + 1..j][m + k - i - 1];
    }
    assert NoSpace(t[i - k + 1..j - k]);
    assert t[i - k] == s[i] && t[j - k] == s[j];
    assert t[i - k - 1] == s[i - 1] && t[j - k + 1] == s[j + 1];
  }

  /** Trimming never changes the outcome: a match consists of non-space
      characters only, so it lies inside the trimmed part. */
  lemma ShapeIgnoresTrim(s: string)
    ensures HasEmailShape(Trim(s)) <==> HasEmailShape(s)
  {
    TrimIsSlice(s);
    var t := Trim(s);
    var k := TrimOffset(s);
    if HasEmailShape(t) {
      var i, j :| MatchesAround(t, i, j);
      assert MatchesAround(t, i, j);
      MatchInSlice(s, k, t, i, j);
    }
    if HasEmailShape(s) {
      var i, j :| MatchesAround(s, i, j);
      assert MatchesAround(s, i, j);
      MatchAvoidsSpace(s, k, t, i, j);
    }
  }
}
