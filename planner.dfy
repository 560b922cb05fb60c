/**
 * The day planner as the program has it: Plan objects with setters, and a
 * DayPlanner that keeps a list of references to them and a log of the
 * messages it informs.  Every DayPlanner operation is proved to leave the
 * list and the log as the matching function of module Registry says.
 */
module Planner {
  import opened Text
  import opened Plans
  import opened Ordering
  import opened Registry

  /** One plan; its fields change through the setters. */
  class Plan {
    var name: string
    var start: Time
    var end: Time
    var level: Level
    var done: bool

    constructor (name: string, start: Time, end: Time, level: Level)
      ensures Value() == Entry(name, start, end, level, false)
    {
      this.name := name;
      this.start := start;
      this.end := end;
      this.level := level;
      this.done := false;
    }

    /** The current field values. */
    function Value(): Entry
      reads this
    {
      Entry(name, start, end, level, done)
    }

    method SetName(name: string)
      modifies this
      ensures Value() == old(Value()).(name := name)
    {
      this.name := name;
    }

    method SetStart(start: Time)
      modifies this
      ensures Value() == old(Value()).(start := start)
    {
      this.start := start;
    }

    method SetEnd(end: Time)
      modifies this
      ensures Value() == old(Value()).(end := end)
    {
      this.end := end;
    }

    method SetLevel(level: Level)
      modifies this
      ensures Value() == old(Value()).(level := level)
    {
      this.level := level;
    }

    method SetDone(done: bool)
      modifies this
      ensures Value() == old(Value()).(done := done)
    {
      this.done := done;
    }
  }

  /** The field values of the plans ps refers to, in list order. */
  function Values(ps: seq<Plan>): seq<Entry>
    reads ps
  {
    seq(|ps|, i reads ps requires 0 <= i < |ps| => ps[i].Value())
  }

  /** No Plan object occurs twice in ps. */
  predicate Distinct(ps: seq<Plan>)
  {
    forall i, j :: 0 <= i < j < |ps| ==> ps[i] != ps[j]
  }

  lemma DistinctRemoveAt(ps: seq<Plan>, k: nat)
    requires k < |ps| && Distinct(ps)
    ensures Distinct(RemoveAt(ps, k)) && ps[k] !in RemoveAt(ps, k)
    ensures Distinct(MoveToEnd(ps, k))
  {
    var r := RemoveAt(ps, k);
    forall i | 0 <= i < |r|
      ensures r[i] != ps[k]
    {
      assert r[i] == ps[if i < k then i else i + 1];
    }
  }

  lemma DistinctAppend(ps: seq<Plan>, p: Plan)
    requires Distinct(ps) && p !in ps
    ensures Distinct(ps + [p])
  {
  }

  lemma ValuesRemoveAt(ps: seq<Plan>, k: nat)
    requires k < |ps|
    ensures Values(RemoveAt(ps, k)) == RemoveAt(Values(ps), k)
  {
  }

  lemma ValuesAppend(ps: seq<Plan>, p: Plan)
    ensures Values(ps + [p]) == Values(ps) + [p.Value()]
  {
  }

  class DayPlanner {
    /** The stored plans, in the order of the program's ArrayList. */
    var plans: seq<Plan>
    /** Every message informed so far, oldest first. */
    var log: seq<string>

    /** The list never holds the same Plan object twice. */
    ghost predicate Valid()
      reads this`plans
    {
      Distinct(plans)
    }

    /** The field values of the stored plans. */
    function Entries(): seq<Entry>
      reads this`plans, plans
    {
      Values(plans)
    }

    constructor ()
      ensures Valid() && plans == [] && log == []
    {
      plans := [];
      log := [];
    }

    /** Reports msg to the listener. */
    method Inform(msg: string)
      modifies this`log
      ensures log == old(log) + [msg]
    {
      log := log + [msg];
    }

    /** The first stored plan whose name equals `name` ignoring case, or null. */
    method Find(name: string) returns (found: Plan?)
      ensures FindIndex(Entries(), name).None? ==> found == null
      ensures FindIndex(Entries(), name).Some? ==> found == plans[FindIndex(Entries(), name).value]
    {
      for i := 0 to |plans|
        invariant forall j :: 0 <= j < i ==> !EqualsIgnoreCase(Entries()[j].name, name)
      {
        if EqualsIgnoreCase(plans[i].name, name) {
          assert EqualsIgnoreCase(Entries()[i].name, name);
          return plans[i];
        }
      }
      return null;
    }

    /**
     * The first stored plan that [start, end) clashes with, or null: the
     * loop that addPlan runs over all plans and edit over all other plans.
     */
    method FirstClashing(start: Time, end: Time) returns (clash: Plan?)
      ensures FirstClash(Entries(), start, end).None? ==> clash == null
      ensures FirstClash(Entries(), start, end).Some? ==> clash == plans[FirstClash(Entries(), start, end).value]
    {
      for i := 0 to |plans|
        invariant forall j :: 0 <= j < i ==> !Clashes(start, end, Entries()[j])
      {
        var other := plans[i];
        if start < other.end && end > other.start {
          assert Clashes(start, end, Entries()[i]);
          return other;
        }
      }
      return null;
    }

    /** The position of p in the list, as ArrayList.remove(Object) finds it. */
    method IndexOf(p: Plan) returns (i: nat)
      requires p in plans
      ensures i < |plans| && plans[i] == p && p !in plans[..i]
    {
      i := 0;
      while plans[i] != p
        invariant i < |plans| && p in plans[i..] && p !in plans[..i]
        decreases |plans| - i
      {
        assert plans[..i + 1] == plans[..i] + [plans[i]];
        i := i + 1;
      }
    }

    /** plans.remove(p): takes the plan object p out of the list. */
    method TakeOut(p: Plan) returns (ghost i: nat)
      requires Valid() && p in plans
      modifies this`plans
      ensures i < |old(plans)| && old(plans)[i] == p
      ensures plans == RemoveAt(old(plans), i) && p !in plans && Valid()
      ensures Entries() == RemoveAt(old(Entries()), i)
    {
      var k := IndexOf(p);
      DistinctRemoveAt(plans, k);
      ValuesRemoveAt(plans, k);
      plans := RemoveAt(plans, k);
      i := k;
    }

    /** plans.add(p): appends the plan object p to the list. */
    method Append(p: Plan)
      requires Valid() && p !in plans
      modifies this`plans
      ensures plans == old(plans) + [p] && Valid()
      ensures Entries() == old(Entries()) + [p.Value()]
    {
      DistinctAppend(plans, p);
      ValuesAppend(plans, p);
      plans := plans + [p];
    }

    /** Stores p unless its interval is empty or inverted or clashes with a stored plan. */
    method AddPlan(p: Plan)
      requires Valid()
      modifies this
      ensures Valid()
      ensures Entries() == AddPlanStep(old(Entries()), p.Value()).entries
      ensures log == old(log) + [AddPlanStep(old(Entries()), p.Value()).message]
      ensures plans == old(plans) || plans == old(plans) + [p]
    {
      ghost var s := Entries();
      if !(p.start < p.end) {
        Inform("Start must be before End!");
        return;
      }
      var other := FirstClashing(p.start, p.end);
      if other != null {
        Inform("Clash with: " + other.name);
        return;
      }
      // p clashes with itself, so it is not stored yet
      forall i | 0 <= i < |plans|
        ensures plans[i] != p
      {
        assert !Clashes(p.start, p.end, s[i]);
      }
      Append(p);
      Inform("Added: " + p.name);
    }

    /** Takes out the plan that find returns for name. */
    method RemovePlan(name: string)
      requires Valid()
      modifies this
      ensures Valid()
      ensures Entries() == RemovePlanStep(old(Entries()), name).entries
      ensures log == old(log) + [RemovePlanStep(old(Entries()), name).message]
      ensures FindIndex(old(Entries()), name).None? ==> plans == old(plans)
      ensures FindIndex(old(Entries()), name).Some? ==>
        plans == RemoveAt(old(plans), FindIndex(old(Entries()), name).value)
    {
      ghost var s := Entries();
      var found := Find(name);
      if found != null {
        ghost var i := TakeOut(found);
        assert i == FindIndex(s, name).value;
        Inform("Removed " + name);
      } else {
        Inform("Not found!");
      }
    }

    /** Marks the plan that find returns for name as done. */
    method Finish(name: string)
      requires Valid()
      modifies this, plans
      ensures Valid() && plans == old(plans)
      ensures Entries() == FinishStep(old(Entries()), name).entries
      ensures log == old(log) + [FinishStep(old(Entries()), name).message]
    {
      ghost var s := Entries();
      var found := Find(name);
      if found != null {
        MarkDone(found, FindIndex(s, name).value);
        Inform("Marked completed.");
      } else {
        Inform("Not found!");
      }
    }

    /** found.setDone(true) on the plan at position k, seen through the list. */
    method MarkDone(found: Plan, ghost k: nat)
      requires Valid() && k < |plans| && plans[k] == found
      modifies found
      ensures Entries() == old(Entries())[k := old(Entries())[k].(done := true)]
    {
      found.SetDone(true);
      forall i | 0 <= i < |plans| && i != k
        ensures plans[i] != found
      {
      }
    }

    /**
     * The new times arrive already parsed: None stands for a text that
     * LocalTime.parse rejects.  The level token is read here.
     */
    method Edit(oldName: string, newName: string, s: Option<Time>, e: Option<Time>, lvl: string)
      requires Valid()
      modifies this, plans
      ensures Valid()
      ensures Entries() == EditStep(old(Entries()), oldName, newName, s, e, lvl).entries
      ensures log == old(log) + [EditStep(old(Entries()), oldName, newName, s, e, lvl).message]
      ensures FindIndex(old(Entries()), oldName).None? || s.None? || e.None? || ParseLevel(lvl).None? ==>
        plans == old(plans)
      ensures FindIndex(old(Entries()), oldName).Some? && s.Some? && e.Some? && ParseLevel(lvl).Some? ==>
        plans == MoveToEnd(old(plans), FindIndex(old(Entries()), oldName).value)
    {
      var found := Find(oldName);
      if found == null {
        Inform("Not found!");
        return;
      }
      if s.None? || e.None? {
        Inform("Bad time format.");
        return;
      }
      var parsed := ParseLevel(lvl);
      if parsed.None? {
        Inform("Bad input.");
        return;
      }
      Reschedule(found, FindIndex(Entries(), oldName).value, newName, s.value, e.value, parsed.value);
    }

    /**
     * The rest of edit, on the plan found at position k: take it out, check
     * the new interval against the other plans, then set the fields unless
     * something clashes, and append the plan again.
     */
    method Reschedule(found: Plan, ghost k: nat, newName: string, ns: Time, ne: Time, nl: Level)
      requires Valid() && k < |plans| && plans[k] == found
      modifies this, found
      ensures Valid() && plans == MoveToEnd(old(plans), k)
      ensures Entries() == RescheduleStep(old(Entries()), k, newName, ns, ne, nl).entries
      ensures log == old(log) + [RescheduleStep(old(Entries()), k, newName, ns, ne, nl).message]
    {
      ghost var before := Entries();
      ghost var r := RescheduleStep(before, k, newName, ns, ne, nl);
      ghost var i := TakeOut(found);
      assert i == k;
      ghost var others := Entries();
      var other := FirstClashing(ns, ne);
      if other != null {
        // the position of other among the remaining plans
        ghost var j := FirstClash(others, ns, ne).value;
        assert r == Step(others + [before[k]], "Edit clashes with: " + other.name);
        Inform("Edit clashes with: " + other.name);
        Append(found);
        return;
      }
      assert r == Step(others + [before[k].(name := newName, start := ns, end := ne, level := nl)], "Edited successfully.");
      Rewrite(found, newName, ns, ne, nl);
      Append(found);
      Inform("Edited successfully.");
    }

    /** The setter calls of edit on a plan that is out of the list. */
    method Rewrite(p: Plan, name: string, start: Time, end: Time, level: Level)
      requires p !in plans
      modifies p
      ensures p.Value() == old(p.Value()).(name := name, start := start, end := end, level := level)
      ensures Entries() == old(Entries())
    {
      p.SetName(name);
      p.SetStart(start);
      p.SetEnd(end);
      p.SetLevel(level);
    }

    /** The plans sorted by start, as showPlans prints them. */
    method ShowPlans() returns (shown: seq<Entry>)
      modifies this`log
      ensures plans == old(plans) && Entries() == old(Entries())
      ensures shown == ShowPlansView(Entries()).shown
      ensures log == old(log) + ShowPlansView(Entries()).messages
    {
      if |plans| == 0 {
        Inform("No plans today.");
        return [];
      }
      var copy := Entries();
      shown := SortByStart(copy);
    }

    /** The plans of the level named by lvl, sorted by start, as showByLevel prints them. */
    method ShowByLevel(lvl: string) returns (shown: seq<Entry>)
      modifies this`log
      ensures plans == old(plans) && Entries() == old(Entries())
      ensures shown == ShowByLevelView(Entries(), lvl).shown
      ensures log == old(log) + ShowByLevelView(Entries(), lvl).messages
    {
      var parsed := ParseLevel(lvl);
      if parsed.None? {
        Inform("Invalid level.");
        return [];
      }
      var l := parsed.value;
      var result: seq<Entry> := [];
      for i := 0 to |plans|
        invariant result == OfLevel(Entries()[..i], l)
      {
        assert Entries()[..i + 1] == Entries()[..i] + [plans[i].Value()];
        if plans[i].level == l {
          result := result + [plans[i].Value()];
        }
      }
      assert Entries()[..|plans|] == Entries();
      if result == [] {
        Inform("No tasks with " + lvl);
        return [];
      }
      shown := SortByStart(result);
    }
  }
}
