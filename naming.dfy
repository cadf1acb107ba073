/**
 * Name derivation: the JavaScript-side name of a node, method or property is
 * its managed name with only the first character lower-cased.
 */
module Naming {
  import opened Wrappers

  /**
   * Stand-in for the culture-sensitive `char.ToLower`: ASCII upper-case
   * letters map to their lower-case letter, every other character is kept.
   */
  function ToLowerChar(c: char): char
  {
    if 'A' <= c <= 'Z' then (c as int + ('a' as int - 'A' as int)) as char else c
  }

  /** Lower-casing a character twice is lower-casing it once. */
  lemma ToLowerCharIdempotent(c: char)
    ensures ToLowerChar(ToLowerChar(c)) == ToLowerChar(c)
  {
  }

  /**
   * `LowercaseFirst`: a null or empty name gives the empty name; otherwise the
   * first character is lower-cased and the rest is kept as it is.
   */
  function LowercaseFirst(str: Option<string>): (r: string)
    ensures str.None? || str.value == [] ==> r == []
    ensures str.Some? && str.value != [] ==>
      |r| == |str.value| && r[0] == ToLowerChar(str.value[0]) &&
      forall i :: 1 <= i < |r| ==> r[i] == str.value[i]
  {
    match str
    case None => []
    case Some(s) => if s == [] then [] else [ToLowerChar(s[0])] + s[1..]
  }

  /** Deriving the JavaScript name of a derived name changes nothing. */
  lemma LowercaseFirstIdempotent(str: Option<string>)
    ensures LowercaseFirst(Some(LowercaseFirst(str))) == LowercaseFirst(str)
  {
    var r := LowercaseFirst(str);
    if r != [] {
      ToLowerCharIdempotent(str.value[0]);
      var r' := LowercaseFirst(Some(r));
      assert |r'| == |r|;
      forall i | 0 <= i < |r| ensures r'[i] == r[i] {
      }
    }
  }

  /** The derivation on a few names: "" stays "", "X" becomes "x", "1x" is kept. */
  lemma LowercaseFirstExamples()
    ensures LowercaseFirst(None) == ""
    ensures LowercaseFirst(Some("")) == ""
    ensures LowercaseFirst(Some("X")) == "x"
    ensures LowercaseFirst(Some("1x")) == "1x"
    ensures LowercaseFirst(Some("FooBar")) == "fooBar"
  {
    assert LowercaseFirst(Some("X")) == [ToLowerChar('X')];
    assert LowercaseFirst(Some("1x")) == [ToLowerChar('1')] + "x";
    assert LowercaseFirst(Some("FooBar")) == [ToLowerChar('F')] + "ooBar";
  }
}
