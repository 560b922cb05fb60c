/**
 * Case-insensitive comparison of text, as the day planner uses it to look
 * plans up by name and to read priority tokens.  Case mapping is modelled for
 * the ASCII letters; every other character is its own upper and lower case.
 */
module Text {

  /** The upper case of one character. */
  function UpperChar(c: char): char
  {
    if 'a' <= c <= 'z' then (c as int - 32) as char else c
  }

  /** The lower case of one character. */
  function LowerChar(c: char): char
  {
    if 'A' <= c <= 'Z' then (c as int + 32) as char else c
  }

  /** The string with every character upper-cased (String.toUpperCase). */
  function Upper(s: string): string
  {
    seq(|s|, i requires 0 <= i < |s| => UpperChar(s[i]))
  }

  /** The string with every character lower-cased (String.toLowerCase). */
  function Lower(s: string): string
  {
    seq(|s|, i requires 0 <= i < |s| => LowerChar(s[i]))
  }

  /**
   * Character comparison of String.equalsIgnoreCase: the characters are
   * equal, or their upper cases are, or the lower cases of their upper cases are.
   */
  predicate CharsEqualIgnoreCase(a: char, b: char)
  {
    a == b || UpperChar(a) == UpperChar(b) || LowerChar(UpperChar(a)) == LowerChar(UpperChar(b))
  }

  /** String.equalsIgnoreCase: same length and pairwise matching characters. */
  predicate EqualsIgnoreCase(x: string, y: string)
  {
    |x| == |y| && forall i :: 0 <= i < |x| ==> CharsEqualIgnoreCase(x[i], y[i])
  }

  /** Two characters match ignoring case exactly when their lower cases agree. */
  lemma CharsEqualIgnoreCaseIffLower(a: char, b: char)
    ensures CharsEqualIgnoreCase(a, b) <==> LowerChar(a) == LowerChar(b)
  {
  }

  /** Ignoring case is comparing lower-cased strings. */
  lemma EqualsIgnoreCaseIffLower(x: string, y: string)
    ensures EqualsIgnoreCase(x, y) <==> Lower(x) == Lower(y)
  {
    if |x| == |y| {
      forall i | 0 <= i < |x|
        ensures CharsEqualIgnoreCase(x[i], y[i]) <==> Lower(x)[i] == Lower(y)[i]
      {
        CharsEqualIgnoreCaseIffLower(x[i], y[i]);
      }
      if Lower(x) != Lower(y) {
        var k :| 0 <= k < |x| && Lower(x)[k] != Lower(y)[k];
        assert !CharsEqualIgnoreCase(x[k], y[k]);
      }
    } else {
      assert |Lower(x)| != |Lower(y)|;
    }
  }

  /** Upper-casing identifies the same strings as lower-casing. */
  lemma UpperIffLower(x: string, y: string)
    ensures Upper(x) == Upper(y) <==> Lower(x) == Lower(y)
  {
    if |x| == |y| {
      forall i | 0 <= i < |x|
        ensures Upper(x)[i] == Upper(y)[i] <==> Lower(x)[i] == Lower(y)[i]
      {
      }
      if Lower(x) != Lower(y) {
        var k :| 0 <= k < |x| && Lower(x)[k] != Lower(y)[k];
        assert Upper(x)[k] != Upper(y)[k];
      }
      if Upper(x) != Upper(y) {
        var k :| 0 <= k < |x| && Upper(x)[k] != Upper(y)[k];
        assert Lower(x)[k] != Lower(y)[k];
      }
    } else {
      assert |Lower(x)| != |Lower(y)| && |Upper(x)| != |Upper(y)|;
    }
  }

  /** Matching ignoring case is an equivalence relation. */
  lemma EqualsIgnoreCaseIsEquivalence(x: string, y: string, z: string)
    ensures EqualsIgnoreCase(x, x)
    ensures EqualsIgnoreCase(x, y) ==> EqualsIgnoreCase(y, x)
    ensures EqualsIgnoreCase(x, y) && EqualsIgnoreCase(y, z) ==> EqualsIgnoreCase(x, z)
  {
    EqualsIgnoreCaseIffLower(x, x);
    EqualsIgnoreCaseIffLower(x, y);
    EqualsIgnoreCaseIffLower(y, x);
    EqualsIgnoreCaseIffLower(y, z);
    EqualsIgnoreCaseIffLower(x, z);
  }
}
