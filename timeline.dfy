/**
 * The achievements timeline: the list is cleared, then one item per
 * achievement is appended, in order.
 */
module Timeline {

  datatype Achievement = Achievement(date: string, title: string, detail: string)

  /** One list item: the date in `<time>`, the title in `<strong>`, the
      detail below it. */
  datatype Entry = Entry(time: string, heading: string, body: string)

  function EntryOf(a: Achievement): Entry {
    Entry(a.date, a.title, a.detail)
  }

  function AchievementOf(e: Entry): Achievement {
    Achievement(e.time, e.heading, e.body)
  }

  /** The items the timeline should hold, one per achievement. */
  function Entries(achievements: seq<Achievement>): (r: seq<Entry>)
    ensures |r| == |achievements|
  {
    if achievements == [] then []
    else [EntryOf(achievements[0])] + Entries(achievements[1..])
  }

  function AchievementsOf(entries: seq<Entry>): (r: seq<Achievement>)
    ensures |r| == |entries|
  {
    if entries == [] then []
    else [AchievementOf(entries[0])] + AchievementsOf(entries[1..])
  }

  /** Appending achievements appends their items: the timeline follows the
      order of the input. */
  lemma {:induction false} EntriesAppend(a: seq<Achievement>, b: seq<Achievement>)
    ensures Entries(a + b) == Entries(a) + Entries(b)
  {
    if a != [] {
      assert (a + b)[1..] == a[1..] + b;
      EntriesAppend(a[1..], b);
    } else {
      assert a + b == b;
    }
  }

  /** The timeline loses nothing: every date, title and detail can be read
      back, in order. */
  lemma {:induction false} EntriesRoundTrip(achievements: seq<Achievement>)
    ensures AchievementsOf(Entries(achievements)) == achievements
  {
    if achievements != [] {
      EntriesRoundTrip(achievements[1..]);
      assert Entries(achievements)[1..] == Entries(achievements[1..]);
      assert achievements == [achievements[0]] + achievements[1..];
    }
  }

  class AchievementsTimeline {
    /** The `<li>` children of the timeline element, in order. */
    var items: seq<Entry>

    constructor ()
      ensures items == []
    {
      items := [];
    }

    /** `renderTimeline`: clear the list, then append one item per
        achievement. */
    method Render(achievements: seq<Achievement>)
      modifies this
      ensures items == Entries(achievements)
    {
      items := [];
      var i := 0;
      while i < |achievements|
        invariant 0 <= i <= |achievements|
        invariant items == Entries(achievements[..i])
      {
        EntriesAppend(achievements[..i], [achievements[i]]);
        assert achievements[..i + 1] == achievements[..i] + [achievements[i]];
        items := items + [EntryOf(achievements[i])];
        i := i + 1;
      }
      assert achievements[..i] == achievements;
    }
  }
}
