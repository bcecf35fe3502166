/** Substring search and ASCII case folding: the string operations the host's
    log classifier and the upload server's file-name check rely on. */
module Text {

  /** `needle` starts at position `i` of `hay`. */
  predicate OccursAt(needle: string, hay: string, i: int)
  {
    0 <= i && i + |needle| <= |hay| && hay[i..i + |needle|] == needle
  }

  /** Reference meaning of Python's `needle in hay` on strings. */
  ghost predicate Occurs(needle: string, hay: string)
  {
    exists i :: OccursAt(needle, hay, i)
  }

  /** Executable substring test, scanning `hay` from the left. */
  function Contains(hay: string, needle: string): (r: bool)
    ensures r <==> Occurs(needle, hay)
    decreases |hay|
  {
    if |hay| < |needle| then
      assert forall i :: !OccursAt(needle, hay, i);
      false
    else if hay[..|needle|] == needle then
      assert OccursAt(needle, hay, 0);
      true
    else
      var rest := Contains(hay[1..], needle);
      ShiftOccurs(needle, hay);
      rest
  }

  /** An occurrence in `hay` other than at 0 is an occurrence in `hay[1..]`, and back. */
  lemma ShiftOccurs(needle: string, hay: string)
    requires |hay| > 0
    requires !OccursAt(needle, hay, 0)
    ensures Occurs(needle, hay) <==> Occurs(needle, hay[1..])
  {
    if Occurs(needle, hay) {
      var i :| OccursAt(needle, hay, i);
      assert hay[1..][i - 1..i - 1 + |needle|] == hay[i..i + |needle|];
      assert OccursAt(needle, hay[1..], i - 1);
    }
    if Occurs(needle, hay[1..]) {
      var i :| OccursAt(needle, hay[1..], i);
      assert hay[1..][i..i + |needle|] == hay[i + 1..i + 1 + |needle|];
      assert OccursAt(needle, hay, i + 1);
    }
  }

  /** A prefix is an occurrence at position 0. */
  lemma PrefixOccurs(needle: string, hay: string)
    requires |needle| <= |hay| && hay[..|needle|] == needle
    ensures Occurs(needle, hay)
  {
    assert OccursAt(needle, hay, 0);
  }

  /** Every adjacent pair of characters of an occurring `needle` appears adjacent in `hay`;
      a string lacking such a pair therefore cannot contain `needle`. */
  lemma OccursHasPair(needle: string, hay: string, j: nat)
    requires j + 1 < |needle|
    ensures Occurs(needle, hay) ==>
      exists k :: 0 <= k < |hay| - 1 && hay[k] == needle[j] && hay[k + 1] == needle[j + 1]
  {
    if Occurs(needle, hay) {
      var i :| OccursAt(needle, hay, i);
      assert hay[i + j] == hay[i..i + |needle|][j];
      assert hay[i + j + 1] == hay[i..i + |needle|][j + 1];
    }
  }

  /** Every character of an occurring `needle` appears in `hay`. */
  lemma OccursHasChar(needle: string, hay: string, j: nat)
    requires j < |needle|
    ensures Occurs(needle, hay) ==> needle[j] in hay
  {
    if Occurs(needle, hay) {
      var i :| OccursAt(needle, hay, i);
      assert hay[i + j] == hay[i..i + |needle|][j];
    }
  }

  /** ASCII lower-casing of one character; every other character is left alone. */
  function LowerChar(c: char): char
  {
    if 'A' <= c <= 'Z' then (c as int - 'A' as int + 'a' as int) as char else c
  }

  /** Python's `str.lower()`, restricted to the ASCII letters. */
  function Lower(s: string): (r: string)
    ensures |r| == |s|
    ensures forall i :: 0 <= i < |s| ==> r[i] == LowerChar(s[i])
  {
    seq(|s|, i requires 0 <= i < |s| => LowerChar(s[i]))
  }

  /** Lower-casing distributes over concatenation. */
  lemma LowerAppend(a: string, b: string)
    ensures Lower(a + b) == Lower(a) + Lower(b)
  {
  }

  /** Python's `s.endswith(suffix)`. */
  predicate EndsWith(s: string, suffix: string)
  {
    |suffix| <= |s| && s[|s| - |suffix|..] == suffix
  }
}
