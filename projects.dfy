/**
 * The pure part of the projects section: project records, the visible
 * subset for a filter, the tag universe behind the filter buttons, the
 * button strip, and the card each project is rendered to. Cards are
 * abstract records, not HTML: the markup is built by string interpolation
 * without escaping, and nothing here claims otherwise.
 */
module Projects {
  import opened Common
  import opened Order

  /** A project link: its `label` (shown as the text) and its `href`. */
  datatype Link = Link(text: string, href: string)

  /** A project record. A missing `tags`, `links` or `gallery` list is the
      empty sequence, which is how the `|| []` fallbacks treat it. */
  datatype Project = Project(
    title: string,
    period: string,
    cover: string,
    desc: string,
    tags: seq<string>,
    links: seq<Link>,
    gallery: seq<string>)

  /** The filter value that shows every project; also the first button. */
  const AllFilter: string := "All"

  /** Whether project `p` passes `filter`. */
  predicate Shown(p: Project, filter: string) {
    filter == AllFilter || filter in p.tags
  }

  /** `PROJECTS.filter(...)`: the projects that pass, in their original order. */
  function Visible(ps: seq<Project>, filter: string): (r: seq<Project>)
    ensures |r| <= |ps|
    ensures forall p :: p in r ==> p in ps && Shown(p, filter)
  {
    if ps == [] then []
    else (if Shown(ps[0], filter) then [ps[0]] else []) + Visible(ps[1..], filter)
  }

  /** `xs` is `ys` with some elements left out and the rest kept in order. */
  predicate IsSubsequence<T(==)>(xs: seq<T>, ys: seq<T>)
    decreases |ys|
  {
    xs == [] ||
    (ys != [] &&
     ((xs[0] == ys[0] && IsSubsequence(xs[1..], ys[1..])) || IsSubsequence(xs, ys[1..])))
  }

  /** Filtering keeps the original relative order. */
  lemma {:induction false} VisibleIsSubsequence(ps: seq<Project>, filter: string)
    ensures IsSubsequence(Visible(ps, filter), ps)
  {
    if ps != [] {
      var rest := Visible(ps[1..], filter);
      VisibleIsSubsequence(ps[1..], filter);
      if Shown(ps[0], filter) {
        assert Visible(ps, filter) == [ps[0]] + rest;
        assert ([ps[0]] + rest)[1..] == rest;
      } else {
        assert Visible(ps, filter) == rest;
      }
    }
  }

  /** Filtering keeps every copy of a project that passes and drops every
      copy of one that does not. */
  lemma {:induction false} VisibleMultiplicity(ps: seq<Project>, filter: string, p: Project)
    ensures multiset(Visible(ps, filter))[p] == if Shown(p, filter) then multiset(ps)[p] else 0
  {
    if ps != [] {
      VisibleMultiplicity(ps[1..], filter, p);
      assert ps == [ps[0]] + ps[1..];
    }
  }

  /** A project is listed exactly when it is one of the projects and passes. */
  lemma VisibleMember(ps: seq<Project>, filter: string, p: Project)
    ensures p in Visible(ps, filter) <==> p in ps && Shown(p, filter)
  {
    VisibleMultiplicity(ps, filter, p);
    assert p in Visible(ps, filter) <==> p in multiset(Visible(ps, filter));
  }

  /** Filtering a concatenation filters each part: the order of the result
      follows the order of the input. */
  lemma {:induction false} VisibleAppend(a: seq<Project>, b: seq<Project>, filter: string)
    ensures Visible(a + b, filter) == Visible(a, filter) + Visible(b, filter)
  {
    if a != [] {
      assert (a + b)[1..] == a[1..] + b;
      VisibleAppend(a[1..], b, filter);
    } else {
      assert a + b == b;
    }
  }

  /** The "All" filter shows every project, in order. */
  lemma {:induction false} VisibleAll(ps: seq<Project>)
    ensures Visible(ps, AllFilter) == ps
  {
    if ps != [] {
      VisibleAll(ps[1..]);
      assert ps == [ps[0]] + ps[1..];
    }
  }

  /** Filtering again with the same filter changes nothing. */
  lemma {:induction false} VisibleIdempotent(ps: seq<Project>, filter: string)
    ensures Visible(Visible(ps, filter), filter) == Visible(ps, filter)
  {
    if ps != [] {
      var head := if Shown(ps[0], filter) then [ps[0]] else [];
      VisibleAppend(head, Visible(ps[1..], filter), filter);
      VisibleIdempotent(ps[1..], filter);
    }
  }

  // ----- the tag universe -----

  /** Some project carries tag `t`. */
  ghost predicate HasTag(ps: seq<Project>, t: string) {
    exists k :: 0 <= k < |ps| && t in ps[k].tags
  }

  /** `allTags.add(t)` for each `t` of `ts` in turn: a JavaScript `Set` keeps
      the first occurrence of each value, in insertion order. */
  function AddTags(acc: seq<string>, ts: seq<string>): (r: seq<string>)
    requires Distinct(acc)
    ensures Distinct(r) && acc <= r
    ensures forall t :: t in r <==> t in acc || t in ts
    decreases ts
  {
    if ts == [] then acc
    else
      var next := if ts[0] in acc then acc else acc + [ts[0]];
      assert Distinct(next) && acc <= next;
      assert forall t :: t in next <==> t in acc || t == ts[0];
      assert forall t :: t in ts <==> t == ts[0] || t in ts[1..];
      AddTags(next, ts[1..])
  }

  /** The nested `forEach` over the projects and their tags. */
  function CollectTags(acc: seq<string>, ps: seq<Project>): (r: seq<string>)
    requires Distinct(acc)
    ensures Distinct(r) && acc <= r
    ensures forall t :: t in r <==> t in acc || HasTag(ps, t)
    decreases ps
  {
    if ps == [] then acc
    else
      var r := CollectTags(AddTags(acc, ps[0].tags), ps[1..]);
      assert forall t :: HasTag(ps, t) <==> t in ps[0].tags || HasTag(ps[1..], t) by {
        forall t ensures HasTag(ps, t) <==> t in ps[0].tags || HasTag(ps[1..], t) {
          if HasTag(ps, t) {
            var k :| 0 <= k < |ps| && t in ps[k].tags;
            if k > 0 { assert ps[1..][k - 1] == ps[k]; }
          }
          if HasTag(ps[1..], t) {
            var k :| 0 <= k < |ps[1..]| && t in ps[1..][k].tags;
            assert ps[k + 1] == ps[1..][k];
          }
        }
      }
      r
  }

  /** The set of all tags, in first-seen order, each exactly once. */
  function TagUniverse(ps: seq<Project>): (r: seq<string>)
    ensures Distinct(r)
    ensures forall t :: t in r <==> HasTag(ps, t)
  {
    CollectTags([], ps)
  }

  // ----- the filter buttons -----

  /** A filter button: its `data-tag` and whether it carries `active`. */
  datatype Button = Button(tag: string, active: bool)

  /** One button per tag, in the given order. */
  function TagButtons(tags: seq<string>, filter: string): (r: seq<Button>)
    ensures |r| == |tags|
    ensures forall i :: 0 <= i < |r| ==> r[i].tag == tags[i] && (r[i].active <==> tags[i] == filter)
  {
    if tags == [] then []
    else [Button(tags[0], tags[0] == filter)] + TagButtons(tags[1..], filter)
  }

  /** `renderFilterButtons`: "All" first, then the tags in sorted order. */
  function FilterButtons(ps: seq<Project>, filter: string): (r: seq<Button>)
  {
    [Button(AllFilter, filter == AllFilter)] + TagButtons(Sort(TagUniverse(ps)), filter)
  }

  /** The `data-tag` values of a strip of buttons. */
  function TagsOf(bs: seq<Button>): (r: seq<string>)
    ensures |r| == |bs| && forall i :: 0 <= i < |bs| ==> r[i] == bs[i].tag
  {
    seq(|bs|, i requires 0 <= i < |bs| => bs[i].tag)
  }

  /** The strip is "All" first, then every tag of any project exactly once, in
      strictly increasing order; a button is active iff its tag is the filter. */
  lemma FilterStrip(ps: seq<Project>, filter: string)
    ensures var bs := FilterButtons(ps, filter);
      && |bs| >= 1 && bs[0].tag == AllFilter
      && StrictlySorted(TagsOf(bs[1..]))
      && (forall t :: t in TagsOf(bs[1..]) <==> HasTag(ps, t))
      && (forall i :: 0 <= i < |bs| ==> (bs[i].active <==> bs[i].tag == filter))
  {
    var sorted := Sort(TagUniverse(ps));
    SortedUniverse(ps);
    var bs := FilterButtons(ps, filter);
    assert bs[1..] == TagButtons(sorted, filter);
    assert TagsOf(bs[1..]) == sorted;
  }

  /** Sorting the tag universe keeps exactly the tags some project carries. */
  lemma SortedUniverse(ps: seq<Project>)
    ensures StrictlySorted(Sort(TagUniverse(ps)))
    ensures forall t :: t in Sort(TagUniverse(ps)) <==> HasTag(ps, t)
  {
    var u := TagUniverse(ps);
    forall t ensures t in Sort(u) <==> HasTag(ps, t) {
      assert t in Sort(u) <==> t in multiset(Sort(u));
      assert t in u <==> t in multiset(u);
    }
  }

  /** Every button's tag is a filter the module accepts: "All" or a tag some
      project carries. */
  lemma ButtonTagIsFilter(ps: seq<Project>, filter: string, i: nat)
    requires i < |FilterButtons(ps, filter)|
    ensures var tag := FilterButtons(ps, filter)[i].tag; tag == AllFilter || HasTag(ps, tag)
  {
    FilterStrip(ps, filter);
    var bs := FilterButtons(ps, filter);
    if i > 0 {
      assert bs[i].tag == TagsOf(bs[1..])[i - 1];
    }
  }

  /** The strip depends on the set of tags only, not on which project carries
      them or in which order they were first seen. */
  lemma FilterStripDependsOnTagSet(ps: seq<Project>, qs: seq<Project>, filter: string)
    requires forall t :: HasTag(ps, t) <==> HasTag(qs, t)
    ensures FilterButtons(ps, filter) == FilterButtons(qs, filter)
  {
    var a := Sort(TagUniverse(ps));
    var b := Sort(TagUniverse(qs));
    forall t ensures t in a <==> t in b {
      assert t in a <==> t in multiset(a);
      assert t in b <==> t in multiset(b);
      assert t in TagUniverse(ps) <==> t in multiset(TagUniverse(ps));
      assert t in TagUniverse(qs) <==> t in multiset(TagUniverse(qs));
    }
    StrictlySortedUnique(a, b);
  }

  /** The number of buttons that carry `active`. */
  function CountActive(bs: seq<Button>): (n: nat)
    ensures n <= |bs|
  {
    if bs == [] then 0 else (if bs[0].active then 1 else 0) + CountActive(bs[1..])
  }

  lemma {:induction false} TagButtonsActiveCount(tags: seq<string>, filter: string)
    requires Distinct(tags)
    ensures CountActive(TagButtons(tags, filter)) == if filter in tags then 1 else 0
  {
    if tags != [] {
      var r := TagButtons(tags, filter);
      assert r[1..] == TagButtons(tags[1..], filter);
      assert Distinct(tags[1..]) by {
        forall i, j | 0 <= i < j < |tags[1..]| ensures tags[1..][i] != tags[1..][j] {
          assert tags[1..][i] == tags[i + 1] && tags[1..][j] == tags[j + 1];
        }
      }
      TagButtonsActiveCount(tags[1..], filter);
      assert tags[0] !in tags[1..] by {
        forall j | 0 <= j < |tags[1..]| ensures tags[1..][j] != tags[0] {
          assert tags[1..][j] == tags[j + 1];
        }
      }
      assert filter in tags <==> filter == tags[0] || filter in tags[1..] by {
        assert tags == [tags[0]] + tags[1..];
      }
      assert CountActive(r) == (if r[0].active then 1 else 0) + CountActive(r[1..]);
    }
  }

  /** How many buttons are active: one for "All" when that is the filter,
      plus one when the filter is a tag of some project. So exactly one is
      active when the filter is "All" or a known tag, unless some project
      is itself tagged "All" (then two buttons carry `data-tag="All"`). */
  lemma ActiveButtons(ps: seq<Project>, filter: string)
    ensures CountActive(FilterButtons(ps, filter))
      == (if filter == AllFilter then 1 else 0) + (if HasTag(ps, filter) then 1 else 0)
  {
    var sorted := Sort(TagUniverse(ps));
    var bs := FilterButtons(ps, filter);
    StrictlySortedDistinct(sorted);
    TagButtonsActiveCount(sorted, filter);
    assert bs[1..] == TagButtons(sorted, filter);
    assert filter in sorted <==> filter in multiset(sorted);
    assert filter in TagUniverse(ps) <==> filter in multiset(TagUniverse(ps));
  }

  // ----- project cards -----

  /** A hidden lightbox link: its target, the `data-gallery` group, and the
      title and number in its `aria-label` ("<title> image <ordinal>"). */
  datatype GalleryLink = GalleryLink(href: string, group: nat, title: string, ordinal: nat)

  /** The content of a project card. `coverLink` is where the cover opens,
      `coverImage` the image shown, `group` the `proj-<index>` gallery group. */
  datatype Card = Card(
    coverLink: string,
    group: nat,
    coverImage: string,
    title: string,
    galleryLinks: seq<GalleryLink>,
    period: string,
    desc: string,
    tags: seq<string>,
    links: seq<Link>)

  /** `projectCard(p, index)`. The cover opens the first gallery image when
      there is one and it is not the empty string (JavaScript's truthiness),
      and the cover image otherwise. */
  function ProjectCard(p: Project, index: nat): (c: Card)
    ensures c.group == index && c.title == p.title && c.coverImage == p.cover
    ensures c.coverLink == p.cover || (|p.gallery| > 0 && c.coverLink == p.gallery[0] != "")
    ensures |p.gallery| > 0 && p.gallery[0] != "" ==> c.coverLink == p.gallery[0]
    ensures |c.galleryLinks| == |p.gallery|
    ensures forall i :: 0 <= i < |c.galleryLinks| ==>
      c.galleryLinks[i].href == p.gallery[i] && c.galleryLinks[i].ordinal == i + 1
      && c.galleryLinks[i].group == index && c.galleryLinks[i].title == p.title
  {
    var cover := if |p.gallery| > 0 && p.gallery[0] != "" then p.gallery[0] else p.cover;
    var gallery := seq(|p.gallery|, i requires 0 <= i < |p.gallery| =>
      GalleryLink(p.gallery[i], index, p.title, i + 1));
    Card(cover, index, p.cover, p.title, gallery, p.period, p.desc, p.tags, p.links)
  }

  /** Reads a project back from its card. */
  function ProjectOfCard(c: Card): Project {
    Project(c.title, c.period, c.coverImage, c.desc, c.tags, c.links,
            seq(|c.galleryLinks|, i requires 0 <= i < |c.galleryLinks| => c.galleryLinks[i].href))
  }

  /** A card loses nothing of its project: tags, links and gallery entries
      all appear, in input order. */
  lemma CardRoundTrip(p: Project, index: nat)
    ensures ProjectOfCard(ProjectCard(p, index)) == p
  {
    var c := ProjectCard(p, index);
    assert ProjectOfCard(c).gallery == p.gallery;
  }

  /** The cards of the grid: card `i` belongs to the `i`-th listed project
      (the index counts within the filtered list). */
  function Cards(list: seq<Project>): (r: seq<Card>)
    ensures |r| == |list|
  {
    seq(|list|, i requires 0 <= i < |list| => ProjectCard(list[i], i))
  }

  /** The grid shows exactly the listed projects, in order, numbered from 0. */
  lemma CardsShowList(list: seq<Project>)
    ensures forall i :: 0 <= i < |list| ==>
      ProjectOfCard(Cards(list)[i]) == list[i] && Cards(list)[i].group == i
  {
    forall i | 0 <= i < |list|
      ensures ProjectOfCard(Cards(list)[i]) == list[i]
    {
      CardRoundTrip(list[i], i);
    }
  }
}
