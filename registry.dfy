/**
 * The day planner's operations on the list of its plans, as values: what each
 * operation leaves in the list and the one message it informs.  The class
 * DayPlanner in module Planner is proved to behave exactly like these.
 */
module Registry {
  import opened Text
  import opened Plans
  import opened Ordering

  /** No two plans at different positions of the list clash. */
  predicate NoOverlap(s: seq<Entry>)
  {
    forall i, j :: 0 <= i < |s| && 0 <= j < |s| && i != j ==> !Overlap(s[i], s[j])
  }

  /** The position of the first plan in s that [start, end) clashes with. */
  function FirstClash(s: seq<Entry>, start: Time, end: Time): (r: Option<nat>)
    ensures r.None? <==> forall i :: 0 <= i < |s| ==> !Clashes(start, end, s[i])
    ensures r.Some? ==> r.value < |s| && Clashes(start, end, s[r.value])
    ensures r.Some? ==> forall i :: 0 <= i < r.value ==> !Clashes(start, end, s[i])
  {
    if s == [] then None
    else if Clashes(start, end, s[0]) then Some(0)
    else match FirstClash(s[1..], start, end)
      case None => None
      case Some(k) => Some(k + 1)
  }

  /** The position of the first plan in s whose name equals `name` ignoring case. */
  function FindIndex(s: seq<Entry>, name: string): (r: Option<nat>)
    ensures r.None? <==> forall i :: 0 <= i < |s| ==> !EqualsIgnoreCase(s[i].name, name)
    ensures r.Some? ==> r.value < |s| && EqualsIgnoreCase(s[r.value].name, name)
    ensures r.Some? ==> forall i :: 0 <= i < r.value ==> !EqualsIgnoreCase(s[i].name, name)
  {
    if s == [] then None
    else if EqualsIgnoreCase(s[0].name, name) then Some(0)
    else match FindIndex(s[1..], name)
      case None => None
      case Some(k) => Some(k + 1)
  }

  /** s without its element at position k (ArrayList.remove). */
  function RemoveAt<T>(s: seq<T>, k: nat): seq<T>
    requires k < |s|
  {
    s[..k] + s[k + 1..]
  }

  /** s with its element at position k taken out and appended again. */
  function MoveToEnd<T>(s: seq<T>, k: nat): seq<T>
    requires k < |s|
  {
    RemoveAt(s, k) + [s[k]]
  }

  /** Removing the element at k loses exactly that element. */
  lemma RemoveAtMultiset<T>(s: seq<T>, k: nat)
    requires k < |s|
    ensures multiset(RemoveAt(s, k)) + multiset{s[k]} == multiset(s)
  {
    assert s == s[..k] + [s[k]] + s[k + 1..];
  }

  /** The plans of s with level l, in list order. */
  function OfLevel(s: seq<Entry>, l: Level): seq<Entry>
  {
    if s == [] then []
    else OfLevel(s[..|s| - 1], l) + (if s[|s| - 1].level == l then [s[|s| - 1]] else [])
  }

  /** The list after an operation and the message the operation informs. */
  datatype Step = Step(entries: seq<Entry>, message: string)

  /** What a view operation shows and the messages it informs. */
  datatype View = View(shown: seq<Entry>, messages: seq<string>)

  /** DayPlanner.addPlan. */
  function AddPlanStep(s: seq<Entry>, p: Entry): Step
  {
    if !(p.start < p.end) then Step(s, "Start must be before End!")
    else match FirstClash(s, p.start, p.end)
      case Some(k) => Step(s, "Clash with: " + s[k].name)
      case None => Step(s + [p], "Added: " + p.name)
  }

  /** DayPlanner.removePlan. */
  function RemovePlanStep(s: seq<Entry>, name: string): Step
  {
    match FindIndex(s, name)
    case None => Step(s, "Not found!")
    case Some(k) => Step(RemoveAt(s, k), "Removed " + name)
  }

  /** DayPlanner.finish. */
  function FinishStep(s: seq<Entry>, name: string): Step
  {
    match FindIndex(s, name)
    case None => Step(s, "Not found!")
    case Some(k) => Step(s[k := s[k].(done := true)], "Marked completed.")
  }

  /**
   * DayPlanner.edit.  The new times arrive already parsed: None stands for a
   * text that LocalTime.parse rejects.
   */
  function EditStep(s: seq<Entry>, oldName: string, newName: string,
                    newStart: Option<Time>, newEnd: Option<Time>, lvl: string): Step
  {
    match FindIndex(s, oldName)
    case None => Step(s, "Not found!")
    case Some(k) =>
      if newStart.None? || newEnd.None? then Step(s, "Bad time format.")
      else match ParseLevel(lvl)
        case None => Step(s, "Bad input.")
        case Some(l) => RescheduleStep(s, k, newName, newStart.value, newEnd.value, l)
  }

  /** The clash search of edit: the first other plan the new interval clashes with. */
  function EditClash(s: seq<Entry>, k: nat, newStart: Time, newEnd: Time): Option<nat>
    requires k < |s|
  {
    FirstClash(RemoveAt(s, k), newStart, newEnd)
  }

  /**
   * The part of edit after the lookup and the parsing: the plan at k is taken
   * out, the new interval checked against the others, and the plan appended
   * again, with the new fields only when nothing clashes.
   */
  function RescheduleStep(s: seq<Entry>, k: nat, newName: string, newStart: Time, newEnd: Time, l: Level): Step
    requires k < |s|
  {
    var others := RemoveAt(s, k);
    match EditClash(s, k, newStart, newEnd)
    case Some(j) => Step(others + [s[k]], "Edit clashes with: " + others[j].name)
    case None =>
      Step(others + [s[k].(name := newName, start := newStart, end := newEnd, level := l)], "Edited successfully.")
  }

  /** DayPlanner.showPlans. */
  function ShowPlansView(s: seq<Entry>): View
  {
    if s == [] then View([], ["No plans today."]) else View(SortByStart(s), [])
  }

  /** DayPlanner.showByLevel. */
  function ShowByLevelView(s: seq<Entry>, lvl: string): View
  {
    match ParseLevel(lvl)
    case None => View([], ["Invalid level."])
    case Some(l) =>
      var result := OfLevel(s, l);
      if result == [] then View([], ["No tasks with " + lvl]) else View(SortByStart(result), [])
  }

  // ---------------------------------------------------------------------------
  // Lookup

  /**
   * The lookup is by case-insensitive name: a query finds the same plan as
   * any query equal to it ignoring case.
   */
  lemma {:induction false} FindIndexIgnoresCase(s: seq<Entry>, a: string, b: string)
    requires EqualsIgnoreCase(a, b)
    ensures FindIndex(s, a) == FindIndex(s, b)
  {
    forall i | 0 <= i < |s|
      ensures EqualsIgnoreCase(s[i].name, a) <==> EqualsIgnoreCase(s[i].name, b)
    {
      EqualsIgnoreCaseIsEquivalence(s[i].name, a, b);
      EqualsIgnoreCaseIsEquivalence(s[i].name, b, a);
      EqualsIgnoreCaseIsEquivalence(a, b, a);
    }
    var ra, rb := FindIndex(s, a), FindIndex(s, b);
    if ra.Some? && rb.Some? {
      assert !(ra.value < rb.value) && !(rb.value < ra.value);
    }
  }

  /** Changing the done flag of a plan does not change what a name lookup finds. */
  lemma {:induction false} FindIndexIgnoresDone(s: seq<Entry>, k: nat, name: string)
    requires k < |s|
    ensures FindIndex(s[k := s[k].(done := true)], name) == FindIndex(s, name)
  {
    var t := s[k := s[k].(done := true)];
    assert forall i :: 0 <= i < |s| ==> t[i].name == s[i].name;
    var rs, rt := FindIndex(s, name), FindIndex(t, name);
    if rs.Some? && rt.Some? {
      assert !(rs.value < rt.value) && !(rt.value < rs.value);
    }
  }

  // ---------------------------------------------------------------------------
  // addPlan

  /**
   * addPlan rejects an empty or inverted interval, and otherwise rejects a
   * plan that clashes with a stored one, naming the first such plan in list
   * order; the list is then unchanged.  Otherwise the plan is appended.
   */
  lemma AddPlanOutcomes(s: seq<Entry>, p: Entry)
    ensures !(p.start < p.end) ==> AddPlanStep(s, p) == Step(s, "Start must be before End!")
    ensures p.start < p.end && (exists i :: 0 <= i < |s| && Clashes(p.start, p.end, s[i])) ==>
      exists k :: 0 <= k < |s| && Clashes(p.start, p.end, s[k])
        && (forall i :: 0 <= i < k ==> !Clashes(p.start, p.end, s[i]))
        && AddPlanStep(s, p) == Step(s, "Clash with: " + s[k].name)
    ensures p.start < p.end && (forall i :: 0 <= i < |s| ==> !Clashes(p.start, p.end, s[i])) ==>
      AddPlanStep(s, p) == Step(s + [p], "Added: " + p.name)
  {
    if p.start < p.end && FirstClash(s, p.start, p.end).Some? {
      var k := FirstClash(s, p.start, p.end).value;
      assert Clashes(p.start, p.end, s[k]);
    }
  }

  /** A plan with a proper interval that is already in the list is never added a second time. */
  lemma AddPlanRejectsStoredPlan(s: seq<Entry>, p: Entry)
    requires p in s && p.start < p.end
    ensures AddPlanStep(s, p).entries == s
  {
    var i :| 0 <= i < |s| && s[i] == p;
    assert Clashes(p.start, p.end, s[i]);
  }

  /** Appending a plan that clashes with none of a clash-free list keeps it clash-free. */
  lemma AppendPreservesNoOverlap(s: seq<Entry>, p: Entry)
    requires NoOverlap(s)
    requires forall i :: 0 <= i < |s| ==> !Clashes(p.start, p.end, s[i])
    ensures NoOverlap(s + [p])
  {
    var r := s + [p];
    forall i, j | 0 <= i < |r| && 0 <= j < |r| && i != j
      ensures !Overlap(r[i], r[j])
    {
      if i == |s| {
        assert !Clashes(p.start, p.end, s[j]);
      } else if j == |s| {
        assert !Clashes(p.start, p.end, s[i]);
      } else {
        assert r[i] == s[i] && r[j] == s[j];
      }
    }
  }

  /** addPlan keeps the list free of clashes. */
  lemma AddPlanPreservesNoOverlap(s: seq<Entry>, p: Entry)
    requires NoOverlap(s)
    ensures NoOverlap(AddPlanStep(s, p).entries)
  {
    if p.start < p.end && FirstClash(s, p.start, p.end).None? {
      AppendPreservesNoOverlap(s, p);
    }
  }

  // ---------------------------------------------------------------------------
  // removePlan and finish

  /** Removing keeps the others in order and loses exactly the found plan. */
  lemma RemovePlanRemovesFound(s: seq<Entry>, name: string)
    ensures FindIndex(s, name).None? ==> RemovePlanStep(s, name) == Step(s, "Not found!")
    ensures FindIndex(s, name).Some? ==>
      var k := FindIndex(s, name).value;
      var r := RemovePlanStep(s, name).entries;
      && r == s[..k] + s[k + 1..]
      && |r| == |s| - 1
      && multiset(r) + multiset{s[k]} == multiset(s)
  {
    if FindIndex(s, name).Some? {
      RemoveAtMultiset(s, FindIndex(s, name).value);
    }
  }

  /** Taking any plan out of a clash-free list leaves it clash-free. */
  lemma RemoveAtPreservesNoOverlap(s: seq<Entry>, k: nat)
    requires k < |s| && NoOverlap(s)
    ensures NoOverlap(RemoveAt(s, k))
  {
    var r := RemoveAt(s, k);
    forall i, j | 0 <= i < |r| && 0 <= j < |r| && i != j
      ensures !Overlap(r[i], r[j])
    {
      var i', j' := if i < k then i else i + 1, if j < k then j else j + 1;
      assert r[i] == s[i'] && r[j] == s[j'];
    }
  }

  /** removePlan keeps the list free of clashes. */
  lemma RemovePlanPreservesNoOverlap(s: seq<Entry>, name: string)
    requires NoOverlap(s)
    ensures NoOverlap(RemovePlanStep(s, name).entries)
  {
    if FindIndex(s, name).Some? {
      RemoveAtPreservesNoOverlap(s, FindIndex(s, name).value);
    }
  }

  /** finish changes only the done flag of the found plan, and marks it done. */
  lemma FinishMarksFound(s: seq<Entry>, name: string)
    ensures FindIndex(s, name).None? ==> FinishStep(s, name) == Step(s, "Not found!")
    ensures FindIndex(s, name).Some? ==>
      var k := FindIndex(s, name).value;
      var r := FinishStep(s, name).entries;
      && |r| == |s| && r[k].done
      && r[k] == s[k].(done := true)
      && forall i :: 0 <= i < |s| && i != k ==> r[i] == s[i]
  {
  }

  /** Marking a plan done twice leaves the same list as marking it once. */
  lemma FinishIdempotent(s: seq<Entry>, name: string)
    ensures FinishStep(FinishStep(s, name).entries, name).entries == FinishStep(s, name).entries
  {
    match FindIndex(s, name)
    case None =>
    case Some(k) =>
      var t := FinishStep(s, name).entries;
      FindIndexIgnoresDone(s, k, name);
      assert t[k := t[k].(done := true)] == t;
  }

  /** finish keeps the list free of clashes. */
  lemma FinishPreservesNoOverlap(s: seq<Entry>, name: string)
    requires NoOverlap(s)
    ensures NoOverlap(FinishStep(s, name).entries)
  {
    var r := FinishStep(s, name).entries;
    assert |r| == |s| && forall i :: 0 <= i < |s| ==> r[i].start == s[i].start && r[i].end == s[i].end;
  }

  // ---------------------------------------------------------------------------
  // edit

  /** edit finds the plan, both times and the level parse, and nothing else clashes. */
  predicate EditApplies(s: seq<Entry>, oldName: string, newStart: Option<Time>, newEnd: Option<Time>, lvl: string)
  {
    && FindIndex(s, oldName).Some? && newStart.Some? && newEnd.Some? && ParseLevel(lvl).Some?
    && EditClash(s, FindIndex(s, oldName).value, newStart.value, newEnd.value).None?
  }

  /**
   * A failed edit changes no plan's fields: after a lookup or parse failure
   * the list is untouched, after a clash the plan is only moved to the end.
   */
  lemma EditFailureKeepsFields(s: seq<Entry>, oldName: string, newName: string,
                               newStart: Option<Time>, newEnd: Option<Time>, lvl: string)
    ensures var r := EditStep(s, oldName, newName, newStart, newEnd, lvl).entries;
      !EditApplies(s, oldName, newStart, newEnd, lvl) ==> multiset(r) == multiset(s)
    ensures var r := EditStep(s, oldName, newName, newStart, newEnd, lvl).entries;
      FindIndex(s, oldName).None? || newStart.None? || newEnd.None? || ParseLevel(lvl).None? ==> r == s
    ensures var r := EditStep(s, oldName, newName, newStart, newEnd, lvl).entries;
      && FindIndex(s, oldName).Some? && newStart.Some? && newEnd.Some? && ParseLevel(lvl).Some?
      && !EditApplies(s, oldName, newStart, newEnd, lvl) ==>
        r == MoveToEnd(s, FindIndex(s, oldName).value)
  {
    if FindIndex(s, oldName).Some? {
      RemoveAtMultiset(s, FindIndex(s, oldName).value);
    }
  }

  /**
   * A successful edit moves the found plan to the end with the new name,
   * times and level and its done flag kept, having checked the new interval
   * against every other plan and against no other.
   */
  lemma EditSuccess(s: seq<Entry>, oldName: string, newName: string,
                    newStart: Option<Time>, newEnd: Option<Time>, lvl: string)
    requires EditApplies(s, oldName, newStart, newEnd, lvl)
    ensures var k := FindIndex(s, oldName).value;
      var others := RemoveAt(s, k);
      var r := EditStep(s, oldName, newName, newStart, newEnd, lvl);
      && (forall i :: 0 <= i < |others| ==> !Clashes(newStart.value, newEnd.value, others[i]))
      && r.entries == others + [Entry(newName, newStart.value, newEnd.value, ParseLevel(lvl).value, s[k].done)]
      && r.message == "Edited successfully."
  {
  }

  /** The plan being edited is not checked against itself: an edit changing only name and level always succeeds. */
  lemma EditKeepingIntervalSucceeds(s: seq<Entry>, oldName: string, newName: string, lvl: string)
    requires NoOverlap(s)
    requires FindIndex(s, oldName).Some? && ParseLevel(lvl).Some?
    ensures var k := FindIndex(s, oldName).value;
      EditApplies(s, oldName, Some(s[k].start), Some(s[k].end), lvl)
  {
    var k := FindIndex(s, oldName).value;
    var others := RemoveAt(s, k);
    forall i | 0 <= i < |others|
      ensures !Clashes(s[k].start, s[k].end, others[i])
    {
      var i' := if i < k then i else i + 1;
      assert others[i] == s[i'] && i' != k;
    }
  }

  /**
   * edit does not test the order of the new times: on a list holding only the
   * edited plan any interval is stored, also one that addPlan would refuse.
   */
  lemma EditStoresUncheckedInterval(e: Entry, newName: string, newStart: Time, newEnd: Time, lvl: string)
    requires ParseLevel(lvl).Some?
    ensures var edited := e.(name := newName, start := newStart, end := newEnd, level := ParseLevel(lvl).value);
      && EditStep([e], e.name, newName, Some(newStart), Some(newEnd), lvl) == Step([edited], "Edited successfully.")
      && (newEnd <= newStart ==> AddPlanStep([], edited) == Step([], "Start must be before End!"))
  {
    EqualsIgnoreCaseIsEquivalence(e.name, e.name, e.name);
    assert RemoveAt([e], 0) == [];
  }

  /** edit keeps the list free of clashes. */
  lemma EditPreservesNoOverlap(s: seq<Entry>, oldName: string, newName: string,
                               newStart: Option<Time>, newEnd: Option<Time>, lvl: string)
    requires NoOverlap(s)
    ensures NoOverlap(EditStep(s, oldName, newName, newStart, newEnd, lvl).entries)
  {
    var r := EditStep(s, oldName, newName, newStart, newEnd, lvl).entries;
    if FindIndex(s, oldName).Some? && newStart.Some? && newEnd.Some? && ParseLevel(lvl).Some? {
      var k := FindIndex(s, oldName).value;
      var others := RemoveAt(s, k);
      RemoveAtPreservesNoOverlap(s, k);
      var last := r[|r| - 1];
      assert r == others + [last];
      if FirstClash(others, newStart.value, newEnd.value).Some? {
        forall i | 0 <= i < |others|
          ensures !Clashes(last.start, last.end, others[i])
        {
          var i' := if i < k then i else i + 1;
          assert others[i] == s[i'] && i' != k;
        }
      }
      AppendPreservesNoOverlap(others, last);
    }
  }

  // ---------------------------------------------------------------------------
  // views

  /** showPlans shows every plan exactly once, sorted stably by start, or says there are none. */
  lemma ShowPlansCorrect(s: seq<Entry>)
    ensures var v := ShowPlansView(s);
      && SortedByStart(v.shown)
      && multiset(v.shown) == multiset(s)
      && (forall t :: AtStart(v.shown, t) == AtStart(s, t))
      && (v.messages == [] <==> s != [])
      && (s == [] ==> v.messages == ["No plans today."])
  {
    SortByStartCorrect(s);
  }

  /** OfLevel keeps exactly the plans of level l, each as often as in s. */
  lemma {:induction false} OfLevelCount(s: seq<Entry>, l: Level, e: Entry)
    ensures multiset(OfLevel(s, l))[e] == if e.level == l then multiset(s)[e] else 0
  {
    if s != [] {
      OfLevelCount(s[..|s| - 1], l, e);
      assert s == s[..|s| - 1] + [s[|s| - 1]];
    }
  }

  /** showByLevel shows exactly the plans of the given level, sorted stably by start. */
  lemma ShowByLevelCorrect(s: seq<Entry>, lvl: string)
    ensures ParseLevel(lvl).None? ==> ShowByLevelView(s, lvl) == View([], ["Invalid level."])
    ensures ParseLevel(lvl).Some? ==>
      var l := ParseLevel(lvl).value;
      var v := ShowByLevelView(s, lvl);
      && SortedByStart(v.shown)
      && (forall e :: multiset(v.shown)[e] == if e.level == l then multiset(s)[e] else 0)
      && (forall t :: AtStart(v.shown, t) == AtStart(OfLevel(s, l), t))
      && (v.messages == [] <==> v.shown != [])
      && (v.shown == [] ==> v.messages == ["No tasks with " + lvl])
  {
    if ParseLevel(lvl).Some? {
      var l := ParseLevel(lvl).value;
      SortByStartCorrect(OfLevel(s, l));
      forall e
        ensures multiset(ShowByLevelView(s, lvl).shown)[e] == if e.level == l then multiset(s)[e] else 0
      {
        OfLevelCount(s, l, e);
      }
    }
  }
}
