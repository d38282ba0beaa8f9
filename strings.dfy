/**
 * The few `str` methods the component loader relies on: `lower` (on ASCII
 * letters), `split(",")` and `strip()`.
 */
module Strings {

  // ---------------------------------------------------------------------
  // `str.lower`

  predicate IsUpper(c: char) {
    'A' <= c <= 'Z'
  }

  function LowerChar(c: char): char {
    if IsUpper(c) then (c as int + 32) as char else c
  }

  /** `s.lower()`: every upper-case letter replaced by its lower-case form, nothing else touched. */
  function Lower(s: string): (r: string)
    ensures |r| == |s|
    ensures forall i :: 0 <= i < |r| ==> !IsUpper(r[i])
    ensures forall i :: 0 <= i < |r| ==>
      if IsUpper(s[i]) then r[i] as int == s[i] as int + 32 else r[i] == s[i]
  {
    if s == [] then [] else [LowerChar(s[0])] + Lower(s[1..])
  }

  /** Lower-casing twice is lower-casing once. */
  lemma LowerIdempotent(s: string)
    ensures Lower(Lower(s)) == Lower(s)
  {
    var l := Lower(s);
    assert forall i :: 0 <= i < |l| ==> Lower(l)[i] == l[i];
  }

  // ---------------------------------------------------------------------
  // `str.split(sep)`

  /** The number of occurrences of `c` in `s`. */
  function Count(s: string, c: char): nat {
    if s == [] then 0 else (if s[0] == c then 1 else 0) + Count(s[1..], c)
  }

  /** `sep.join(parts)`. */
  function Join(parts: seq<string>, sep: char): string {
    if |parts| == 0 then ""
    else if |parts| == 1 then parts[0]
    else parts[0] + [sep] + Join(parts[1..], sep)
  }

  /**
   * `s.split(sep)`: the pieces between separators, in order. There is always
   * one piece more than there are separators, none of them holds the
   * separator, and joining them back gives `s`.
   */
  function Split(s: string, sep: char): (r: seq<string>)
    ensures |r| == 1 + Count(s, sep)
    ensures forall i :: 0 <= i < |r| ==> sep !in r[i]
    ensures Join(r, sep) == s
  {
    if s == [] then [""]
    else
      var rest := Split(s[1..], sep);
      if s[0] == sep then
        var r := [""] + rest;
        assert r[1..] == rest;
        assert s == [sep] + s[1..];
        r
      else
        var r := [[s[0]] + rest[0]] + rest[1..];
        assert forall i :: 1 <= i < |r| ==> r[i] == rest[i];
        assert s == [s[0]] + s[1..];
        if |rest| == 1 then r
        else
          assert r[1..] == rest[1..];
          r
  }

  // ---------------------------------------------------------------------
  // `str.strip()`

  /**
   * The whitespace `str.strip()` removes: the characters `str.isspace()`
   * accepts, that is tab to carriage return, the four information
   * separators 0x1C-0x1F, space, next-line, no-break space and the Unicode
   * space separators.
   */
  predicate IsSpace(c: char) {
    var k := c as int;
    || 9 <= k <= 13 || 0x1C <= k <= 0x20
    || k == 0x85 || k == 0xA0 || k == 0x1680
    || 0x2000 <= k <= 0x200A || k == 0x2028 || k == 0x2029
    || k == 0x202F || k == 0x205F || k == 0x3000
  }

  predicate AllSpace(s: string) {
    forall i :: 0 <= i < |s| ==> IsSpace(s[i])
  }

  /** The length of the leading whitespace of `s`. */
  function Leading(s: string): (n: nat)
    ensures n <= |s| && AllSpace(s[..n])
    ensures n == |s| || !IsSpace(s[n])
  {
    if s != [] && IsSpace(s[0]) then
      var n := Leading(s[1..]);
      assert s[..n + 1] == [s[0]] + s[1..][..n];
      n + 1
    else 0
  }

  /** Where the trailing whitespace of `s` starts. */
  function Trailing(s: string): (m: nat)
    ensures m <= |s| && AllSpace(s[m..])
    ensures m == 0 || !IsSpace(s[m - 1])
  {
    if s != [] && IsSpace(s[|s| - 1]) then
      var m := Trailing(s[..|s| - 1]);
      assert s[m..] == s[..|s| - 1][m..] + [s[|s| - 1]];
      m
    else |s|
  }

  /**
   * `s.strip()`: `s` with its leading and trailing whitespace removed. The
   * result is a slice of `s` with only whitespace around it, and it neither
   * starts nor ends with whitespace.
   */
  function Strip(s: string): (r: string)
    ensures r == [] || (!IsSpace(r[0]) && !IsSpace(r[|r| - 1]))
    ensures var i := Leading(s);
      i + |r| <= |s| && s[i..i + |r|] == r && AllSpace(s[..i]) && AllSpace(s[i + |r|..])
  {
    var i, j := Leading(s), Trailing(s);
    if i == |s| then
      assert s[i..i] == [];
      []
    else
      assert i < j;
      s[i..j]
  }

  /** Stripping twice is stripping once. */
  lemma StripIdempotent(s: string)
    ensures Strip(Strip(s)) == Strip(s)
  {
  }
}
