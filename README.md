# Day planner registry

A Dafny model of the day planner in `ei_project.java`. The planner is a list
of plans for one day. Each plan has a name, a start and an end time, a
priority level, and a done flag. The Dafny model covers:

- the `Plan` class with its setters and its ordering by start time;
- the `DayPlanner` class with `addPlan`, `find`, `removePlan`, `finish`,
  `edit`, `showPlans`, `showByLevel` and `inform`.

The model has five modules:

- `Text`: `String.equalsIgnoreCase` and `toUpperCase`, with ASCII case
  mapping.
- `Plans`: the level enum and `Level.valueOf`, the plan as a value
  (`Entry`), `compareTo`, and the clash test. The clash test treats
  `[start, end)` as a half-open interval.
- `Ordering`: `Collections.sort` on plans, as a stable insertion sort by
  start time.
- `Registry`: pure specification functions. For each planner operation,
  one function maps the field values of the list, and the operation's
  inputs, to the new field values and the message it informs. The module
  holds the lemmas about these functions:
  - the outcomes of each operation;
  - that the no-overlap invariant is preserved;
  - that `edit` is all-or-nothing;
  - the sorted, stable, complete views.
- `Planner`: the program's own objects. `Plan` is a class with mutable
  fields and setters. `DayPlanner` holds a `seq<Plan>` of object
  references (the `ArrayList`) and a `seq<string>` log (the listener).
  Each method loops over the list as the Java code does. Each method is
  proved to leave `Entries()` and the log exactly as the matching
  `Registry` function says. `Entries()` is the field values of the
  referenced plans. The methods' `plans` postconditions say which objects
  the list holds afterwards. `Valid()` states that no object appears in
  the list twice, and every method preserves it.
- `Scenario`: a worked day on concrete plans.

Times are integers (for example minutes since midnight). The planner only
compares them.

Where the code behaves differently from what a reader might expect, the
model follows the code:

- `addPlan` and `edit` never look at names, so two plans may share a name.
  `find` returns the first one in list order.
- `edit` does not check that the new start is before the new end. On a
  list holding only the edited plan, any interval is stored, including one
  that `addPlan` refuses (`Registry.EditStoresUncheckedInterval`).
- When the edited interval clashes, `edit` appends the untouched plan
  again at the end. The list order therefore changes even though no field
  does (`Registry.EditFailureKeepsFields`, `Scenario.EditClashMovesToEnd`).
- `edit` reports an unparsable time as "Bad time format." and an unknown
  level token as "Bad input.". Both times are parsed before the level.
  Parsing happens before the plan is taken out, so either failure leaves
  the list as it was.

## Model

| member | source | states |
|---|---|---|
| Text.EqualsIgnoreCaseIffLower | ei_project.java:181 | two names match ignoring case exactly when their lower-cased forms are equal |
| Text.EqualsIgnoreCaseIsEquivalence | ei_project.java:181 | the case-insensitive name match is reflexive, symmetric and transitive |
| Plans.ParseLevelIgnoresCase | ei_project.java:135 | `Level.valueOf(lvl.toUpperCase())` yields level l exactly when the token equals l's constant name ignoring case, and yields nothing otherwise |
| Plans.Entry.CompareTo | ei_project.java:36-38 | the comparison is negative, zero or positive exactly when this start is before, equal to or after the other's |
| Plans.OverlapSymmetric | ei_project.java:86 | the clash test gives the same answer with the two plans swapped |
| Plans.OverlapIsCommonInstant | ei_project.java:86 | for proper intervals the clash test holds exactly when the half-open intervals share an instant, so touching endpoints do not clash |
| Plans.ProperIntervalOverlapsItself | ei_project.java:81-86 | a plan clashes with itself exactly when its start is before its end |
| Ordering.InsertElements | ei_project.java:101 | one insertion step of the sort adds exactly the inserted plan |
| Ordering.InsertSorted | ei_project.java:101 | one insertion step keeps the list sorted by start |
| Ordering.InsertAtStart | ei_project.java:101 | the inserted plan lands after every plan with the same start (stability) |
| Ordering.SortByStartCorrect | ei_project.java:100-101 | the sort result is sorted by start, is a permutation of its input, and keeps the input order among plans with equal start |
| Ordering.StableSortedUnique | ei_project.java:101 | two lists that are sorted by start and agree on the plans at each start time are equal, so any stable sort gives this result |
| Registry.FirstClash | ei_project.java:85-90 | the position of the first stored plan the interval clashes with, or none exactly when it clashes with none |
| Registry.FindIndex | ei_project.java:179-184 | the position of the first plan whose name matches ignoring case, or none exactly when no name matches |
| Registry.FindIndexIgnoresCase | ei_project.java:179-184 | two queries equal ignoring case find the same plan |
| Registry.FindIndexIgnoresDone | ei_project.java:179-184 | marking a plan done does not change what a lookup finds |
| Registry.RemoveAtMultiset | ei_project.java:108 | taking out the plan at a position loses exactly that plan |
| Registry.AddPlanOutcomes | ei_project.java:80-93 | an empty or inverted interval is refused with "Start must be before End!" and the list kept; otherwise the first clashing stored plan in list order is named in "Clash with: " and the list kept; otherwise the plan is appended with "Added: " and its name |
| Registry.AddPlanRejectsStoredPlan | ei_project.java:85-90 | a plan with a proper interval that is already stored is not added again |
| Registry.AppendPreservesNoOverlap | ei_project.java:85-92 | appending a plan that clashes with no stored plan keeps a clash-free list clash-free |
| Registry.AddPlanPreservesNoOverlap | ei_project.java:80-93 | addPlan keeps a clash-free list clash-free |
| Registry.RemovePlanRemovesFound | ei_project.java:105-113 | on not-found the list is kept and "Not found!" informed; otherwise exactly the found plan is taken out and the others keep their order |
| Registry.RemoveAtPreservesNoOverlap | ei_project.java:108 | taking out any plan keeps a clash-free list clash-free |
| Registry.RemovePlanPreservesNoOverlap | ei_project.java:105-113 | removePlan keeps a clash-free list clash-free |
| Registry.FinishMarksFound | ei_project.java:115-123 | on not-found nothing changes; otherwise only the found plan changes, and only its done flag, which becomes true |
| Registry.FinishIdempotent | ei_project.java:115-123 | finishing the same name twice leaves the same list as finishing it once |
| Registry.FinishPreservesNoOverlap | ei_project.java:115-123 | finish keeps a clash-free list clash-free |
| Registry.EditFailureKeepsFields | ei_project.java:125-159 | a failed edit changes no plan's fields; on not-found or a parse failure the list is unchanged, and on a clash the plan is only moved to the end |
| Registry.EditSuccess | ei_project.java:137-152 | on success no other plan clashes with the new interval, and the found plan moves to the end with the new name, times and level and its done flag kept |
| Registry.EditKeepingIntervalSucceeds | ei_project.java:137-144 | in a clash-free list an edit that keeps the plan's interval always succeeds, because the plan is not checked against itself |
| Registry.EditStoresUncheckedInterval | ei_project.java:131-152 | edit stores any new interval, including an inverted one that addPlan refuses |
| Registry.EditPreservesNoOverlap | ei_project.java:137-152 | edit keeps a clash-free list clash-free |
| Registry.OfLevelCount | ei_project.java:164-166 | the level filter keeps each plan of that level as often as it occurs and no other plan |
| Registry.ShowPlansCorrect | ei_project.java:95-103 | the view is sorted by start, a stable permutation of all plans, and "No plans today." is informed exactly when there are none |
| Registry.ShowByLevelCorrect | ei_project.java:161-177 | an unknown token gives "Invalid level."; otherwise the view is a sorted, stable permutation of exactly the plans of that level, and "No tasks with " is informed exactly when there are none |
| Planner.Plan.constructor | ei_project.java:16-22 | a new plan has the given fields and is not done |
| Planner.Plan.SetName | ei_project.java:25 | only the name changes |
| Planner.Plan.SetStart | ei_project.java:27 | only the start changes |
| Planner.Plan.SetEnd | ei_project.java:29 | only the end changes |
| Planner.Plan.SetLevel | ei_project.java:31 | only the level changes |
| Planner.Plan.SetDone | ei_project.java:33 | only the done flag changes |
| Planner.DayPlanner.constructor | ei_project.java:59-63 | a new planner has no plans and has informed nothing |
| Planner.DayPlanner.Inform | ei_project.java:76-78 | the message is appended to the log |
| Planner.DayPlanner.Find | ei_project.java:179-184 | returns the stored object at the first case-insensitive name match, or null exactly when no name matches |
| Planner.DayPlanner.FirstClashing | ei_project.java:85-90 | returns the stored object at the first position the interval clashes with, or null exactly when it clashes with none |
| Planner.DayPlanner.IndexOf | ei_project.java:108 | the first position holding the given object |
| Planner.DayPlanner.TakeOut | ei_project.java:108 | `plans.remove(found)` takes exactly that object out, keeps the others in order and leaves no copy of it |
| Planner.DayPlanner.Append | ei_project.java:91 | `plans.add(p)` appends the object and its field values |
| Planner.DayPlanner.AddPlan | ei_project.java:80-93 | field values and log are as `AddPlanStep` says, and the list either stays the same or gains exactly the object p (never a second copy) |
| Planner.DayPlanner.RemovePlan | ei_project.java:105-113 | field values and log are as `RemovePlanStep` says, and exactly the found object is taken out |
| Planner.DayPlanner.Finish | ei_project.java:115-123 | the list of objects is kept, and field values and log are as `FinishStep` says |
| Planner.DayPlanner.MarkDone | ei_project.java:118 | `found.setDone(true)` changes only the done flag at the found position of the list |
| Planner.DayPlanner.Edit | ei_project.java:125-159 | field values and log are as `EditStep` says; the list of objects is kept on not-found or a parse failure, and otherwise the found object is moved to the end |
| Planner.DayPlanner.Reschedule | ei_project.java:137-152 | after the parsing, the found object is taken out, checked against the others and appended again, with new fields only when nothing clashes |
| Planner.DayPlanner.Rewrite | ei_project.java:146-149 | the four setters give the plan its new name, times and level and change no stored plan |
| Planner.DayPlanner.ShowPlans | ei_project.java:95-103 | nothing stored changes, and the returned view and the log are as `ShowPlansView` says |
| Planner.DayPlanner.ShowByLevel | ei_project.java:161-177 | nothing stored changes, the loop collects exactly the plans of the level, and the returned view and the log are as `ShowByLevelView` says |
| Scenario.TouchingPlansAreAdded | ei_project.java:80-93 | 09:00-10:00 and 10:00-11:00 are both added |
| Scenario.ClashReportsFirstStored | ei_project.java:85-90 | 09:30-10:30 is refused against the first stored plan it clashes with |
| Scenario.ListingIsByStart | ei_project.java:95-103 | the listing is in start order whatever the list order |
| Scenario.EditClashMovesToEnd | ei_project.java:138-144 | a clashing edit names the other plan and moves the edited plan, unchanged, to the end |
| Scenario.FinishTwice | ei_project.java:115-123 | finishing a plan a second time changes nothing more |
| Scenario.RemoveIgnoresCase | ei_project.java:105-113 | `removePlan("Gym")` removes the plan named "gym" |

## Left out

- `AstronautPlannerApp.main` (ei_project.java:187-261) is a console prompt loop. It is I/O only.
- `ScreenNotifier`, `Plan.toString` and the `System.out.println` loops in `showPlans` and `showByLevel` only render output. `ShowPlans` and `ShowByLevel` return the sorted plans instead.
- `LocalTime.parse` is a library parser. `Edit` receives each time already parsed, and `None` stands for a text the parser rejects. `Level.valueOf(...toUpperCase())` is modelled (`Plans.ParseLevel`).
- `equalsIgnoreCase` and `toUpperCase` map only the ASCII letters. Other characters are their own case, so Unicode and locale-specific case rules are not modelled.
- `DayPlanner.get()` is a lazily created singleton. The model uses an explicitly constructed `DayPlanner`.
- `addListener` and the listener list are replaced by a single log. With no listener registered, the Java `inform` reports nothing, while the model still appends to its log.
- `Collections.sort` works in place on a copy of the list. The model sorts the copied field values with a functional stable sort. `Ordering.StableSortedUnique` shows that every stable sort by start gives this same result.
- The plain getters are read as field accesses.
- Null names, null times and a null plan argument are not modelled. Java would throw `NullPointerException` for some of these.
- Planner.DayPlanner.AddPlan: the postcondition does not restate the no-overlap invariant. It equates the result with `Registry.AddPlanStep`, and `Registry.AddPlanPreservesNoOverlap` proves the invariant for that function.
- Planner.DayPlanner.RemovePlan: the postcondition does not restate the no-overlap invariant. `Registry.RemovePlanPreservesNoOverlap` proves it for `Registry.RemovePlanStep`, which the postcondition matches.
- Planner.DayPlanner.Finish: the postcondition does not restate the no-overlap invariant. `Registry.FinishPreservesNoOverlap` proves it for `Registry.FinishStep`, which the postcondition matches.
- Planner.DayPlanner.Edit: the postcondition does not restate the no-overlap invariant. `Registry.EditPreservesNoOverlap` proves it for `Registry.EditStep`, which the postcondition matches.
- designPattern.java is not part of this model.
