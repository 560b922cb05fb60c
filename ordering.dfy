/**
 * The order in which the planner shows its plans: Collections.sort on a copy
 * of the list, that is a stable sort by Plan.compareTo (the start time).
 */
module Ordering {
  import opened Plans

  /** Start times never decrease along s. */
  predicate SortedByStart(s: seq<Entry>)
  {
    forall i, j :: 0 <= i < j < |s| ==> s[i].start <= s[j].start
  }

  /** The plans of s that start at t, in their order in s. */
  function AtStart(s: seq<Entry>, t: Time): seq<Entry>
  {
    if s == [] then []
    else AtStart(s[..|s| - 1], t) + (if s[|s| - 1].start == t then [s[|s| - 1]] else [])
  }

  /**
   * Places x into s before the first element that x compares below, so after
   * every element of equal start: the insertion step of a stable sort.
   */
  function Insert(x: Entry, s: seq<Entry>): seq<Entry>
  {
    if s == [] then [x]
    else if x.CompareTo(s[0]) < 0 then [x] + s
    else [s[0]] + Insert(x, s[1..])
  }

  /** A stable sort of s by start time, inserting the elements in list order. */
  function SortByStart(s: seq<Entry>): seq<Entry>
  {
    if s == [] then [] else Insert(s[|s| - 1], SortByStart(s[..|s| - 1]))
  }

  lemma {:induction false} AtStartAppend(a: seq<Entry>, b: seq<Entry>, t: Time)
    ensures AtStart(a + b, t) == AtStart(a, t) + AtStart(b, t)
  {
    if b == [] {
      assert a + b == a;
    } else {
      var b' := b[..|b| - 1];
      assert (a + b)[..|a + b| - 1] == a + b';
      AtStartAppend(a, b', t);
    }
  }

  lemma {:induction false} AtStartNone(s: seq<Entry>, t: Time)
    requires forall i :: 0 <= i < |s| ==> s[i].start != t
    ensures AtStart(s, t) == []
  {
    if s != [] {
      AtStartNone(s[..|s| - 1], t);
    }
  }

  lemma AtStartOfLast(s: seq<Entry>)
    requires s != []
    ensures AtStart(s, s[|s| - 1].start) != []
  {
  }

  /** Inserting x adds exactly x. */
  lemma {:induction false} InsertElements(x: Entry, s: seq<Entry>)
    ensures multiset(Insert(x, s)) == multiset(s) + multiset{x}
  {
    if s != [] && x.CompareTo(s[0]) >= 0 {
      InsertElements(x, s[1..]);
      assert s == [s[0]] + s[1..];
    }
  }

  /** Inserting x keeps s sorted. */
  lemma {:induction false} InsertSorted(x: Entry, s: seq<Entry>)
    requires SortedByStart(s)
    ensures SortedByStart(Insert(x, s))
  {
    if s != [] && x.CompareTo(s[0]) >= 0 {
      var rest := Insert(x, s[1..]);
      InsertSorted(x, s[1..]);
      InsertElements(x, s[1..]);
      forall y | y in rest
        ensures s[0].start <= y.start
      {
        assert y in multiset(s[1..]) + multiset{x};
      }
    }
  }

  /** A plan placed before every plan of s, all starting later, comes last among those at its start. */
  lemma PrependAtStart(x: Entry, s: seq<Entry>, t: Time)
    requires SortedByStart(s) && s != [] && x.start < s[0].start
    ensures AtStart([x] + s, t) == AtStart(s, t) + (if x.start == t then [x] else [])
  {
    AtStartAppend([x], s, t);
    assert [x][..0] == [];
    if x.start == t {
      AtStartNone(s, t);
    }
  }

  /** The step of InsertAtStart past the first plan of s, given the result for the rest of s. */
  lemma InsertPastFirst(x: Entry, s: seq<Entry>, t: Time)
    requires s != [] && x.CompareTo(s[0]) >= 0
    requires AtStart(Insert(x, s[1..]), t) == AtStart(s[1..], t) + (if x.start == t then [x] else [])
    ensures AtStart(Insert(x, s), t) == AtStart(s, t) + (if x.start == t then [x] else [])
  {
    var here := if x.start == t then [x] else [];
    var first := AtStart([s[0]], t);
    assert Insert(x, s) == [s[0]] + Insert(x, s[1..]);
    AtStartAppend([s[0]], Insert(x, s[1..]), t);
    AtStartAppend([s[0]], s[1..], t);
    assert [s[0]] + s[1..] == s;
    calc {
      AtStart(Insert(x, s), t);
      first + AtStart(Insert(x, s[1..]), t);
      first + (AtStart(s[1..], t) + here);
      (first + AtStart(s[1..], t)) + here;
      AtStart(s, t) + here;
    }
  }

  /** Inserting x adds x after the plans of s that start at the same time. */
  lemma {:induction false} InsertAtStart(x: Entry, s: seq<Entry>, t: Time)
    requires SortedByStart(s)
    ensures AtStart(Insert(x, s), t) == AtStart(s, t) + (if x.start == t then [x] else [])
  {
    if s == [] {
      assert Insert(x, s) == [] + [x];
    } else if x.CompareTo(s[0]) < 0 {
      PrependAtStart(x, s, t);
    } else {
      InsertAtStart(x, s[1..], t);
      InsertPastFirst(x, s, t);
    }
  }

  /**
   * The view is sorted by start, a permutation of s, and stable: the plans
   * starting at any one time keep their relative order.
   */
  lemma {:induction false} SortByStartCorrect(s: seq<Entry>)
    ensures SortedByStart(SortByStart(s))
    ensures multiset(SortByStart(s)) == multiset(s)
    ensures forall t :: AtStart(SortByStart(s), t) == AtStart(s, t)
  {
    if s != [] {
      var init, last := s[..|s| - 1], s[|s| - 1];
      SortByStartCorrect(init);
      InsertSorted(last, SortByStart(init));
      InsertElements(last, SortByStart(init));
      assert s == init + [last];
      forall t
        ensures AtStart(SortByStart(s), t) == AtStart(s, t)
      {
        InsertAtStart(last, SortByStart(init), t);
      }
    }
  }

  /** Two sequences ending at the same start time that agree at t still agree at t without their last plans. */
  lemma DropLastAtStart(a: seq<Entry>, b: seq<Entry>, t: Time)
    requires a != [] && b != [] && a[|a| - 1].start == b[|b| - 1].start
    requires AtStart(a, t) == AtStart(b, t)
    ensures AtStart(a[..|a| - 1], t) == AtStart(b[..|b| - 1], t)
  {
    var x, y := a[|a| - 1], b[|b| - 1];
    var p, q := AtStart(a[..|a| - 1], t), AtStart(b[..|b| - 1], t);
    if t == x.start {
      assert AtStart(a, t) == p + [x] && AtStart(b, t) == q + [y];
      assert |p| == |q|;
      assert p == (p + [x])[..|p|] && q == (q + [y])[..|q|];
    } else {
      assert AtStart(a, t) == p && AtStart(b, t) == q;
    }
  }

  /**
   * Any two sequences that are sorted by start and agree on the plans at
   * every start time are equal: the stable sorted view is unique.
   */
  lemma {:induction false} StableSortedUnique(a: seq<Entry>, b: seq<Entry>)
    requires SortedByStart(a) && SortedByStart(b)
    requires forall t :: AtStart(a, t) == AtStart(b, t)
    ensures a == b
  {
    if a != [] && b != [] {
      var x, y := a[|a| - 1], b[|b| - 1];
      var a', b' := a[..|a| - 1], b[..|b| - 1];
      if x.start < y.start {
        AtStartNone(a, y.start);
        assert false;
      } else if y.start < x.start {
        AtStartNone(b, x.start);
        assert false;
      }
      forall t
        ensures AtStart(a', t) == AtStart(b', t)
      {
        DropLastAtStart(a, b, t);
      }
      StableSortedUnique(a', b');
      var p := AtStart(a', x.start);
      assert AtStart(a, x.start) == p + [x] && AtStart(b, x.start) == p + [y];
      assert (p + [x])[|p|] == x && (p + [y])[|p|] == y;
    } else if a != [] {
      AtStartOfLast(a);
      assert false;
    } else if b != [] {
      AtStartOfLast(b);
      assert false;
    }
  }
}
