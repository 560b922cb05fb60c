/**
 * The values the day planner works with: priority levels, times of day and
 * the fields of one plan, together with the planner's clash test on two
 * half-open time intervals.
 */
module Plans {
  import opened Text

  datatype Option<T> = None | Some(value: T)

  /** A plan's priority. */
  datatype Level = HIGH | MEDIUM | LOW

  /** The constant name of a level, as Level.valueOf expects it. */
  function LevelName(l: Level): string
  {
    match l
    case HIGH => "HIGH"
    case MEDIUM => "MEDIUM"
    case LOW => "LOW"
  }

  /**
   * Level.valueOf(token.toUpperCase()): the level whose constant name is the
   * upper-cased token, or None where the library call throws.
   */
  function ParseLevel(token: string): Option<Level>
  {
    var u := Upper(token);
    if u == "HIGH" then Some(HIGH)
    else if u == "MEDIUM" then Some(MEDIUM)
    else if u == "LOW" then Some(LOW)
    else None
  }

  /** A level token is read ignoring case, and only the three names are accepted. */
  lemma ParseLevelIgnoresCase(token: string, l: Level)
    ensures ParseLevel(token) == Some(l) <==> EqualsIgnoreCase(token, LevelName(l))
  {
    var name := LevelName(l);
    assert Upper(name) == name;
    UpperIffLower(token, name);
    EqualsIgnoreCaseIffLower(token, name);
    assert Lower("HIGH") == "high" && Lower("MEDIUM") == "medium" && Lower("LOW") == "low";
  }

  /**
   * A time of day.  Only the order of times matters to the planner, so a
   * time is its count of units since midnight.
   */
  type Time = int

  /** The fields of one plan; `done` is false for a new plan. */
  datatype Entry = Entry(name: string, start: Time, end: Time, level: Level, done: bool)
  {
    /** Plan.compareTo: the three-way comparison of the start times. */
    function CompareTo(other: Entry): (r: int)
      ensures r < 0 <==> start < other.start
      ensures r == 0 <==> start == other.start
      ensures r > 0 <==> start > other.start
    {
      if start < other.start then -1 else if start == other.start then 0 else 1
    }
  }

  /** The clash test of the planner: [start, end) against the interval of `other`. */
  predicate Clashes(start: Time, end: Time, other: Entry)
  {
    start < other.end && end > other.start
  }

  /** Two plans clash when the interval of the first clashes with the second. */
  predicate Overlap(a: Entry, b: Entry)
  {
    Clashes(a.start, a.end, b)
  }

  /** The clash test does not depend on which of the two plans is tested against the other. */
  lemma OverlapSymmetric(a: Entry, b: Entry)
    ensures Overlap(a, b) <==> Overlap(b, a)
  {
  }

  /** The instant t lies in the half-open interval [e.start, e.end). */
  predicate Covers(e: Entry, t: Time)
  {
    e.start <= t < e.end
  }

  /**
   * For well-formed intervals the clash test is exactly "the half-open
   * intervals share an instant"; touching endpoints share none.
   */
  lemma OverlapIsCommonInstant(a: Entry, b: Entry)
    requires a.start < a.end && b.start < b.end
    ensures Overlap(a, b) <==> exists t: Time :: Covers(a, t) && Covers(b, t)
  {
    if Overlap(a, b) {
      var t := if a.start < b.start then b.start else a.start;
      assert Covers(a, t) && Covers(b, t);
    }
  }

  /** A plan with a non-empty interval clashes with itself. */
  lemma ProperIntervalOverlapsItself(a: Entry)
    ensures Overlap(a, a) <==> a.start < a.end
  {
  }
}
