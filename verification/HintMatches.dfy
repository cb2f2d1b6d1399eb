/** Ordering the matches that a hint has found on screen, before they are given labels. */
module HintMatches {
  import opened GridIndex

  /** From the first to the last point of a match, both included. */
  datatype Match = Match(start: Point, end: Point)

  /** The order of the labels: by start, and of those with one start the longest first. */
  predicate Precedes(a: Match, b: Match) {
    a.start.Less(b.start) || (a.start == b.start && b.end.Less(a.end))
  }

  predicate Ordered(matches: seq<Match>) {
    forall i, j :: 0 <= i < j < |matches| ==> !Precedes(matches[j], matches[i])
  }

  function Insert(matches: seq<Match>, m: Match): seq<Match> {
    if matches == [] then [m]
    else if Precedes(m, matches[0]) then [m] + matches
    else [matches[0]] + Insert(matches[1..], m)
  }

  /** `sort_by_key`; matches with the same key are the same match. */
  function Sort(matches: seq<Match>): seq<Match> {
    if matches == [] then [] else Insert(Sort(matches[..|matches| - 1]), matches[|matches| - 1])
  }

  /** `dedup_by_key`: a match is dropped if it starts where the one kept before it does. */
  function Dedup(matches: seq<Match>): seq<Match> {
    if matches == [] then [] else
      var kept, last := Dedup(matches[..|matches| - 1]), matches[|matches| - 1];
      if kept != [] && kept[|kept| - 1].start == last.start then kept else kept + [last]
  }

  function Visible(found: seq<Match>): seq<Match> {
    Dedup(Sort(found))
  }

  // ----- What is visible -----

  lemma {:induction false} InsertMembers(matches: seq<Match>, m: Match)
    ensures forall k :: k in Insert(matches, m) <==> k == m || k in matches
  {
    if matches != [] && !Precedes(m, matches[0]) {
      InsertMembers(matches[1..], m);
      assert matches == [matches[0]] + matches[1..];
    }
  }

  lemma {:induction false} InsertOrdered(matches: seq<Match>, m: Match)
    requires Ordered(matches)
    ensures Ordered(Insert(matches, m))
  {
    if matches != [] {
      if Precedes(m, matches[0]) {
        forall i | 0 <= i < |matches| ensures !Precedes(matches[i], m) {
          assert i > 0 ==> !Precedes(matches[i], matches[0]);
        }
      } else {
        InsertOrdered(matches[1..], m);
        InsertMembers(matches[1..], m);
        var rest := Insert(matches[1..], m);
        forall j | 0 <= j < |rest| ensures !Precedes(rest[j], matches[0]) {
          assert rest[j] in rest;
          if rest[j] != m {
            var i :| 0 <= i < |matches[1..]| && matches[1..][i] == rest[j];
            assert matches[i + 1] == rest[j];
          }
        }
      }
    }
  }

  lemma {:induction false} SortOrders(matches: seq<Match>)
    ensures Ordered(Sort(matches))
    ensures forall k :: k in Sort(matches) <==> k in matches
  {
    if matches != [] {
      var init, last := matches[..|matches| - 1], matches[|matches| - 1];
      SortOrders(init);
      InsertOrdered(Sort(init), last);
      InsertMembers(Sort(init), last);
      assert matches == init + [last];
    }
  }

  predicate StartsIncrease(matches: seq<Match>) {
    forall i, j :: 0 <= i < j < |matches| ==> matches[i].start.Less(matches[j].start)
  }

  /** No match with the same start is longer. */
  predicate Longest(matches: seq<Match>, m: Match) {
    forall k :: k in matches && k.start == m.start ==> !m.end.Less(k.end)
  }

  /** `kept` has the longest match for each start, in order, and it ends with the last start. */
  ghost predicate IsDedup(matches: seq<Match>, kept: seq<Match>) {
    && StartsIncrease(kept)
    && (forall m :: m in kept <==> m in matches && Longest(matches, m))
    && (matches != [] ==> kept != [] && kept[|kept| - 1].start == matches[|matches| - 1].start)
  }

  lemma {:induction false} DedupKeepsLongest(matches: seq<Match>)
    requires Ordered(matches)
    ensures IsDedup(matches, Dedup(matches))
  {
    if matches != [] {
      var init, last := matches[..|matches| - 1], matches[|matches| - 1];
      DedupKeepsLongest(init);
      assert matches == init + [last];
      if Dedup(init) != [] && Dedup(init)[|Dedup(init)| - 1].start == last.start {
        DropNext(init, last, Dedup(init));
      } else {
        KeepNext(init, last, Dedup(init));
      }
    }
  }

  lemma NotAfter(init: seq<Match>, last: Match, m: Match)
    requires Ordered(init + [last]) && m in init
    ensures !Precedes(last, m)
  {
    var i :| 0 <= i < |init| && init[i] == m;
    assert (init + [last])[|init|] == last && (init + [last])[i] == m;
  }

  /** A match with the start of the one before it is not longer than that. */
  lemma DropNext(init: seq<Match>, last: Match, kept: seq<Match>)
    requires Ordered(init + [last]) && IsDedup(init, kept)
    requires kept != [] && kept[|kept| - 1].start == last.start
    ensures IsDedup(init + [last], kept)
  {
    var first := kept[|kept| - 1];
    assert first in kept;
    forall m ensures m in kept <==> m in init + [last] && Longest(init + [last], m) {
      if m in init {
        NotAfter(init, last, m);
        SameLongest(init, last, m);
      } else if m == last {
        NotAfter(init, last, first);
        assert first in init + [last] && last.end.Less(first.end);
      }
    }
  }

  lemma SameLongest(init: seq<Match>, last: Match, m: Match)
    requires m in init && !Precedes(last, m)
    ensures Longest(init + [last], m) <==> Longest(init, m)
  {
    if Longest(init + [last], m) {
      forall k | k in init && k.start == m.start ensures !m.end.Less(k.end) {
        assert k in init + [last];
      }
    }
  }

  /** A match with another start comes after all others, and no other one has its start. */
  lemma KeepNext(init: seq<Match>, last: Match, kept: seq<Match>)
    requires Ordered(init + [last]) && IsDedup(init, kept)
    requires kept == [] || kept[|kept| - 1].start != last.start
    ensures IsDedup(init + [last], kept + [last])
  {
    forall k | k in init ensures k.start.Less(last.start) {
      StartsBefore(init, last, k);
    }
    forall m ensures m in kept + [last] <==> m in init + [last] && Longest(init + [last], m) {
      if m in init {
        SameLongest(init, last, m);
      }
    }
    forall i | 0 <= i < |kept| ensures kept[i].start.Less(last.start) {
      assert kept[i] in kept;
    }
  }

  lemma StartsBefore(init: seq<Match>, last: Match, k: Match)
    requires Ordered(init + [last]) && k in init && init[|init| - 1].start != last.start
    ensures k.start.Less(last.start)
  {
    NotAfter(init, last, k);
    NotAfter(init, last, init[|init| - 1]);
    if k != init[|init| - 1] {
      assert init == init[..|init| - 1] + [init[|init| - 1]];
      assert Ordered(init) by {
        forall i, j | 0 <= i < j < |init| ensures !Precedes(init[j], init[i]) {
          assert (init + [last])[i] == init[i] && (init + [last])[j] == init[j];
        }
      }
      NotAfter(init[..|init| - 1], init[|init| - 1], k);
    }
  }

  /**
   The visible matches have increasing starts, and are exactly the longest of the found matches that
   start at a point; they are all gone only if nothing was found.
   */
  lemma VisibleMatches(found: seq<Match>)
    ensures StartsIncrease(Visible(found))
    ensures forall m :: m in Visible(found) <==> m in found && Longest(found, m)
    ensures Visible(found) == [] <==> found == []
  {
    SortOrders(found);
    DedupKeepsLongest(Sort(found));
    forall m ensures Longest(Sort(found), m) <==> Longest(found, m) {
    }
    if found != [] {
      assert found[0] in Sort(found);
    }
  }
}
