/** getEpicsFromStories: the distinct epics of a story list, in the order a JavaScript
    `Set` keeps them, which is the order of first insertion. */
module Epics {
  import opened Stories

  predicate NoDuplicates(xs: seq<string>)
  {
    forall i, j :: 0 <= i < j < |xs| ==> xs[i] != xs[j]
  }

  /** The position of the first occurrence of `x` in `xs`. */
  function FirstIndex(xs: seq<string>, x: string): (i: nat)
    requires x in xs
    ensures i < |xs| && xs[i] == x && x !in xs[..i]
  {
    if xs[0] == x then 0
    else
      assert x in xs[1..];
      var j := FirstIndex(xs[1..], x);
      assert xs[..j + 1] == [xs[0]] + xs[1..][..j];
      j + 1
  }

  /** The first occurrence is the only occurrence with no copy before it. */
  lemma {:induction false} FirstIndexUnique(xs: seq<string>, x: string, i: int)
    requires 0 <= i < |xs| && xs[i] == x && x !in xs[..i]
    ensures FirstIndex(xs, x) == i
    decreases i
  {
    if i > 0 {
      assert xs[..i][0] == xs[0];
      assert xs[1..][..i - 1] == xs[1..i];
      assert xs[..i] == [xs[0]] + xs[1..i];
      FirstIndexUnique(xs[1..], x, i - 1);
    }
  }

  /** Appending an element leaves first occurrences of earlier elements where they were. */
  lemma FirstIndexAppend(xs: seq<string>, y: string, x: string)
    requires x in xs
    ensures FirstIndex(xs + [y], x) == FirstIndex(xs, x)
  {
    var i := FirstIndex(xs, x);
    assert (xs + [y])[..i] == xs[..i];
    FirstIndexUnique(xs + [y], x, i);
  }

  /** Every element of `r` occurs in `xs`, and `r` lists them by their first occurrence in `xs`. */
  predicate InFirstOccurrenceOrder(xs: seq<string>, r: seq<string>)
  {
    (forall x :: x in r ==> x in xs) &&
    forall i, j :: 0 <= i < j < |r| ==> FirstIndex(xs, r[i]) < FirstIndex(xs, r[j])
  }

  /** Inserting `xs` into an initially empty insertion-ordered set, one element at a time:
      an element already present is ignored, a new one goes to the end. */
  function Distinct(xs: seq<string>): (r: seq<string>)
    ensures NoDuplicates(r)
    ensures forall x :: x in r <==> x in xs
    ensures |r| <= |xs|
    ensures InFirstOccurrenceOrder(xs, r)
    decreases |xs|
  {
    if |xs| == 0 then []
    else
      var init := xs[..|xs| - 1];
      var last := xs[|xs| - 1];
      var d := Distinct(init);
      assert xs == init + [last];
      OrderedAppend(init, last, d);
      if last in d then d else d + [last]
  }

  /** Inserting one more element keeps first-occurrence order. */
  lemma OrderedAppend(init: seq<string>, last: string, d: seq<string>)
    requires InFirstOccurrenceOrder(init, d)
    ensures InFirstOccurrenceOrder(init + [last], d)
    ensures last !in init ==> InFirstOccurrenceOrder(init + [last], d + [last])
  {
    var xs := init + [last];
    forall x | x in init ensures FirstIndex(xs, x) == FirstIndex(init, x) {
      FirstIndexAppend(init, last, x);
    }
    if last !in init {
      assert xs[..|init|] == init;
      FirstIndexUnique(xs, last, |init|);
      var r := d + [last];
      forall i, j | 0 <= i < j < |r| ensures FirstIndex(xs, r[i]) < FirstIndex(xs, r[j]) {
        if j < |d| {
          assert r[i] == d[i] && r[j] == d[j];
        } else {
          assert r[i] == d[i] && r[i] in init;
        }
      }
    }
  }

  /** The epic of each story, in story order. */
  function EpicsOf(stories: seq<Story>): (epics: seq<string>)
    ensures |epics| == |stories|
    ensures forall i :: 0 <= i < |stories| ==> epics[i] == stories[i].epic
  {
    seq(|stories|, i requires 0 <= i < |stories| => stories[i].epic)
  }

  /** getEpicsFromStories. */
  function GetEpicsFromStories(stories: seq<Story>): (epics: seq<string>)
    ensures NoDuplicates(epics)
    ensures forall s :: s in stories ==> s.epic in epics
    ensures forall e :: e in epics ==> exists s :: s in stories && s.epic == e
    ensures |epics| <= |stories|
    ensures |stories| == 0 ==> epics == []
  {
    var all := EpicsOf(stories);
    assert forall s :: s in stories ==> s.epic in all by {
      forall s | s in stories ensures s.epic in all {
        var i :| 0 <= i < |stories| && stories[i] == s;
        assert all[i] == s.epic;
      }
    }
    assert forall e :: e in all ==> exists s :: s in stories && s.epic == e by {
      forall e | e in all ensures exists s :: s in stories && s.epic == e {
        var i :| 0 <= i < |all| && all[i] == e;
        assert stories[i] in stories;
      }
    }
    Distinct(all)
  }

  /** Epics come out in the order of their first occurrence among the stories. */
  lemma EpicsInFirstOccurrenceOrder(stories: seq<Story>, i: int, j: int)
    requires 0 <= i < j < |GetEpicsFromStories(stories)|
    ensures var epics := GetEpicsFromStories(stories);
      epics[i] in EpicsOf(stories) && epics[j] in EpicsOf(stories) &&
      FirstIndex(EpicsOf(stories), epics[i]) < FirstIndex(EpicsOf(stories), epics[j])
  {
  }

  /** A list without duplicates comes back unchanged. */
  lemma {:induction false} DistinctOfNoDuplicates(xs: seq<string>)
    requires NoDuplicates(xs)
    ensures Distinct(xs) == xs
    decreases |xs|
  {
    if |xs| > 0 {
      var init := xs[..|xs| - 1];
      DistinctOfNoDuplicates(init);
      assert xs[|xs| - 1] !in init;
      assert init + [xs[|xs| - 1]] == xs;
    }
  }

  /** Idempotence: stories carrying the epics getEpicsFromStories returned, in that
      order, give the same epics back. */
  lemma GetEpicsIdempotent(stories: seq<Story>, relabelled: seq<Story>)
    requires EpicsOf(relabelled) == GetEpicsFromStories(stories)
    ensures GetEpicsFromStories(relabelled) == GetEpicsFromStories(stories)
  {
    DistinctOfNoDuplicates(GetEpicsFromStories(stories));
  }

  /** The dedupe is the only list that has no duplicates, holds exactly the elements of
      `xs`, and orders them by first occurrence. */
  lemma DistinctUnique(xs: seq<string>, r: seq<string>)
    requires NoDuplicates(r)
    requires forall x :: x in r <==> x in xs
    requires InFirstOccurrenceOrder(xs, r)
    ensures r == Distinct(xs)
  {
    OrderedUnique(xs, r, Distinct(xs));
  }

  /** The first elements of two such lists agree: both are the element of least first occurrence. */
  lemma HeadsAgree(xs: seq<string>, r: seq<string>, d: seq<string>)
    requires |r| > 0 && |d| > 0
    requires forall x :: x in r <==> x in d
    requires InFirstOccurrenceOrder(xs, r) && InFirstOccurrenceOrder(xs, d)
    ensures r[0] == d[0]
  {
    assert d[0] in r && r[0] in d;
    var a :| 0 <= a < |d| && d[a] == r[0];
    var b :| 0 <= b < |r| && r[b] == d[0];
    assert FirstIndex(xs, r[0]) <= FirstIndex(xs, r[b]) == FirstIndex(xs, d[0]);
    assert FirstIndex(xs, d[0]) <= FirstIndex(xs, d[a]) == FirstIndex(xs, r[0]);
    assert r[0] == xs[FirstIndex(xs, r[0])] == d[0];
  }

  /** Past a common first element, whatever follows in `r` follows in `d` too. */
  lemma TailWithinTail(xs: seq<string>, r: seq<string>, d: seq<string>)
    requires |r| > 0 && |d| > 0 && r[0] == d[0]
    requires forall x :: x in r ==> x in d
    requires InFirstOccurrenceOrder(xs, r)
    ensures forall x :: x in r[1..] ==> x in d[1..]
  {
    forall x | x in r[1..] ensures x in d[1..] {
      var i :| 0 <= i < |r| - 1 && r[1..][i] == x;
      assert FirstIndex(xs, r[0]) < FirstIndex(xs, r[i + 1]);
      assert r[i + 1] in r;
      var k :| 0 <= k < |d| && d[k] == x;
      assert d[1..][k - 1] == x;
    }
  }

  /** Two lists over the same elements of `xs`, both in first-occurrence order, are equal. */
  lemma {:induction false} OrderedUnique(xs: seq<string>, r: seq<string>, d: seq<string>)
    requires forall x :: x in r <==> x in d
    requires InFirstOccurrenceOrder(xs, r) && InFirstOccurrenceOrder(xs, d)
    ensures r == d
    decreases |r| + |d|
  {
    assert |d| > 0 ==> d[0] in r;
    assert |r| > 0 ==> r[0] in d;
    if |r| > 0 && |d| > 0 {
      HeadsAgree(xs, r, d);
      TailWithinTail(xs, r, d);
      TailWithinTail(xs, d, r);
      OrderedTail(xs, r);
      OrderedTail(xs, d);
      OrderedUnique(xs, r[1..], d[1..]);
      assert r == [r[0]] + r[1..] && d == [d[0]] + d[1..];
    }
  }

  lemma OrderedTail(xs: seq<string>, r: seq<string>)
    requires |r| > 0 && InFirstOccurrenceOrder(xs, r)
    ensures InFirstOccurrenceOrder(xs, r[1..])
  {
    assert forall i :: 0 <= i < |r| - 1 ==> r[1..][i] == r[i + 1];
  }
}
