/**
 * A day worked through the planner's operations on concrete plans, with
 * times as minutes since midnight: two plans that only touch, a third that
 * clashes with the first, the sorted listing, an edit that clashes, a plan
 * finished twice, and a removal by a differently cased name.
 */
module Scenario {
  import opened Text
  import opened Plans
  import opened Ordering
  import opened Registry

  /** 09:00-10:00 */
  const A := Entry("A", 540, 600, HIGH, false)
  /** 10:00-11:00 */
  const B := Entry("B", 600, 660, MEDIUM, false)
  /** 09:30-10:30 */
  const C := Entry("C", 570, 630, LOW, false)

  /** Plans that only share an endpoint are both added. */
  lemma TouchingPlansAreAdded()
    ensures AddPlanStep([], A) == Step([A], "Added: A")
    ensures AddPlanStep([A], B) == Step([A, B], "Added: B")
  {
  }

  /** A plan clashing with both stored plans is reported against the first in list order. */
  lemma ClashReportsFirstStored()
    ensures AddPlanStep([A, B], C) == Step([A, B], "Clash with: A")
  {
  }

  /** The listing is by start, whatever the order in the list. */
  lemma ListingIsByStart()
    ensures ShowPlansView([A, B]) == View([A, B], [])
    ensures ShowPlansView([B, A]) == View([A, B], [])
  {
    assert [A, B][..1] == [A] && [B, A][..1] == [B];
    assert [A][..0] == [] && [B][..0] == [];
    assert SortByStart([A]) == [A] && SortByStart([B]) == [B];
    assert [A][1..] == [] && Insert(B, [A]) == [A, B] && Insert(A, [B]) == [A, B];
  }

  /** Moving A to 10:30-11:30 clashes with B: A keeps its fields but goes to the end of the list. */
  lemma EditClashMovesToEnd()
    ensures EditStep([A, B], "A", "A", Some(630), Some(690), "high") == Step([B, A], "Edit clashes with: B")
  {
  }

  /** Finishing A twice leaves the list as finishing it once. */
  lemma FinishTwice()
    ensures FinishStep([B, A], "A") == Step([B, A.(done := true)], "Marked completed.")
    ensures FinishStep([B, A.(done := true)], "A") == Step([B, A.(done := true)], "Marked completed.")
  {
    CharsEqualIgnoreCaseIffLower('B', 'A');
    assert LowerChar('B') == 'b' && LowerChar('A') == 'a';
    assert "B"[0] == 'B' && "A"[0] == 'A';
    assert !CharsEqualIgnoreCase("B"[0], "A"[0]);
    EqualsIgnoreCaseIsEquivalence("A", "A", "A");
    var done := A.(done := true);
    assert FindIndex([B, A], "A") == Some(1) && FindIndex([B, done], "A") == Some(1);
    assert [B, done][1 := done.(done := true)] == [B, done];
    assert [B, A][1..] == [A] && [B, A.(done := true)][1..] == [A.(done := true)];
  }

  /** remove("Gym") removes the plan named "gym". */
  lemma RemoveIgnoresCase()
    ensures RemovePlanStep([Entry("gym", 420, 480, LOW, false)], "Gym") == Step([], "Removed Gym")
  {
  }
}
