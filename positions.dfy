/**
 * Source positions and ranges (Simple/html/__init__.py, and the identical
 * `Position`/`Range` of Simple/htmlparser.py).
 */
module Positions {
  import opened Wrappers

  datatype Position = Position(line: int, col: int)

  datatype Range = Range(start: Position, end: Position)

  /** Number of newline characters in `s`. */
  function NewlineCount(s: string): (n: nat)
    ensures n <= |s|
    ensures n == 0 <==> '\n' !in s
  {
    if s == [] then 0
    else NewlineCount(s[..|s| - 1]) + (if s[|s| - 1] == '\n' then 1 else 0)
  }

  /** Number of characters after the last newline of `s`; all of `s` when it has none. */
  function TailLength(s: string): (n: nat)
    ensures n <= |s|
    ensures forall i :: |s| - n <= i < |s| ==> s[i] != '\n'
    ensures n < |s| ==> s[|s| - n - 1] == '\n'
  {
    if s == [] || s[|s| - 1] == '\n' then 0
    else TailLength(s[..|s| - 1]) + 1
  }

  /** `a` does not come after `b` in (line, column) order. */
  predicate NotAfter(a: Position, b: Position) {
    a.line < b.line || (a.line == b.line && a.col <= b.col)
  }

  /**
   * `Position.range` exactly as the source computes it: a text holding
   * newlines ends `1 + count('\n')` lines further down, which is one line
   * more than the text spans.
   */
  function RangeOfAsWritten(p: Position, text: string): Range {
    if '\n' in text then
      Range(p, Position(p.line + 1 + NewlineCount(text), TailLength(text)))
    else
      Range(p, Position(p.line, p.col + |text|))
  }

  /**
   * `Position.range` as evidently intended: a text holding newlines ends
   * `count('\n')` lines further down, on the column after its last line.
   * The rest of the model uses this definition.
   */
  function RangeOf(p: Position, text: string): Range {
    if '\n' in text then
      Range(p, Position(p.line + NewlineCount(text), TailLength(text)))
    else
      Range(p, Position(p.line, p.col + |text|))
  }

  /** In a text with a newline, the last line is what follows the last newline. */
  lemma LastLine(text: string)
    requires '\n' in text
    ensures NewlineCount(text) > 0
    ensures TailLength(text) < |text| && text[|text| - TailLength(text) - 1] == '\n'
    ensures '\n' !in text[|text| - TailLength(text)..]
  {
    var n := TailLength(text);
    var tail := text[|text| - n..];
    assert forall i :: 0 <= i < |tail| ==> tail[i] == text[|text| - n + i];
  }

  /** What the source's `Position.range` promises, for the code as written. */
  lemma RangeOfAsWrittenSpec(p: Position, text: string)
    ensures RangeOfAsWritten(p, text).start == p
    ensures '\n' !in text ==> RangeOfAsWritten(p, text).end == Position(p.line, p.col + |text|)
    ensures '\n' in text ==>
      var e := RangeOfAsWritten(p, text).end;
      && e.line == p.line + 1 + NewlineCount(text)
      && 0 <= e.col < |text|
      && text[|text| - e.col - 1] == '\n'
      && '\n' !in text[|text| - e.col..]
    ensures NotAfter(p, RangeOfAsWritten(p, text).end)
  {
    if '\n' in text {
      LastLine(text);
      assert RangeOfAsWritten(p, text).end == Position(p.line + 1 + NewlineCount(text), TailLength(text));
    }
  }

  /** The same promises for the corrected definition. */
  lemma RangeOfSpec(p: Position, text: string)
    ensures RangeOf(p, text).start == p
    ensures '\n' !in text ==> RangeOf(p, text).end == Position(p.line, p.col + |text|)
    ensures '\n' in text ==>
      var e := RangeOf(p, text).end;
      && e.line == p.line + NewlineCount(text)
      && 0 <= e.col < |text|
      && text[|text| - e.col - 1] == '\n'
      && '\n' !in text[|text| - e.col..]
    ensures NotAfter(p, RangeOf(p, text).end)
  {
    if '\n' in text {
      LastLine(text);
      assert RangeOf(p, text).end == Position(p.line + NewlineCount(text), TailLength(text));
    }
  }

  lemma {:induction false} NewlineCountConcat(a: string, b: string)
    ensures NewlineCount(a + b) == NewlineCount(a) + NewlineCount(b)
    decreases |b|
  {
    if b == [] {
      assert a + b == a;
    } else {
      assert (a + b)[..|a + b| - 1] == a + b[..|b| - 1];
      NewlineCountConcat(a, b[..|b| - 1]);
    }
  }

  lemma {:induction false} TailLengthConcat(a: string, b: string)
    ensures '\n' in b ==> TailLength(a + b) == TailLength(b)
    ensures '\n' !in b ==> TailLength(a + b) == TailLength(a) + |b|
    decreases |b|
  {
    if b == [] {
      assert a + b == a;
    } else {
      var b' := b[..|b| - 1];
      assert (a + b)[..|a + b| - 1] == a + b';
      assert b == b' + [b[|b| - 1]];
      TailLengthConcat(a, b');
    }
  }

  /**
   * The end of a text is where its second half ends when that half starts
   * at the end of the first: ranges compose over concatenation.
   */
  lemma RangeOfConcat(p: Position, a: string, b: string)
    ensures RangeOf(p, a + b).end == RangeOf(RangeOf(p, a).end, b).end
  {
    NewlineCountConcat(a, b);
    TailLengthConcat(a, b);
    assert '\n' in a + b <==> '\n' in a || '\n' in b by {
      if '\n' in a + b {
        var i :| 0 <= i < |a + b| && (a + b)[i] == '\n';
        if i < |a| { assert a[i] == '\n'; } else { assert b[i - |a|] == '\n'; }
      }
      if '\n' in a {
        var i :| 0 <= i < |a| && a[i] == '\n';
        assert (a + b)[i] == '\n';
      }
      if '\n' in b {
        var i :| 0 <= i < |b| && b[i] == '\n';
        assert (a + b)[|a| + i] == '\n';
      }
    }
  }

  /** The code as written does not compose: "\n\n" read at once or in two halves ends on different lines. */
  lemma RangeOfAsWrittenSplitMismatch(p: Position)
    ensures RangeOfAsWritten(p, "\n\n").end != RangeOfAsWritten(RangeOfAsWritten(p, "\n").end, "\n").end
  {
    assert NewlineCount("\n") == 1;
    assert NewlineCount("\n\n") == 2 by { assert "\n\n"[..1] == "\n"; }
    assert RangeOfAsWritten(p, "\n\n").end.line == p.line + 3;
    assert RangeOfAsWritten(RangeOfAsWritten(p, "\n").end, "\n").end.line == p.line + 4;
  }

  // ---------------------------------------------------------------------
  // Display: `str(Position)` is "line:col" and `str(Range)` is "start-end".

  predicate IsDigit(c: char) {
    '0' <= c <= '9'
  }

  function DigitChar(d: nat): (c: char)
    requires d < 10
    ensures IsDigit(c) && c as int - '0' as int == d
  {
    ('0' as int + d) as char
  }

  /** Decimal digits of `n`, most significant first, as Python's `str` writes them. */
  function NatString(n: nat): (s: string)
    ensures |s| > 0
    ensures forall i :: 0 <= i < |s| ==> IsDigit(s[i])
  {
    if n < 10 then [DigitChar(n)] else NatString(n / 10) + [DigitChar(n % 10)]
  }

  /** Python's `str` of an integer: a minus sign before the digits of a negative one. */
  function IntString(i: int): string {
    if i < 0 then "-" + NatString(-i) else NatString(i)
  }

  /** `Position.__str__`. */
  function PositionString(p: Position): string {
    IntString(p.line) + ":" + IntString(p.col)
  }

  /** `Range.__str__`. */
  function RangeString(r: Range): string {
    PositionString(r.start) + "-" + PositionString(r.end)
  }

  /** Value of a run of decimal digits. */
  function DigitsValue(s: string): nat
    requires forall i :: 0 <= i < |s| ==> IsDigit(s[i])
  {
    if s == [] then 0
    else
      assert IsDigit(s[|s| - 1]);
      10 * DigitsValue(s[..|s| - 1]) + (s[|s| - 1] as int - '0' as int)
  }

  /** Length of the longest prefix of `s` made of digits. */
  function DigitRun(s: string): (k: nat)
    ensures k <= |s|
    ensures forall i :: 0 <= i < k ==> IsDigit(s[i])
    ensures k < |s| ==> !IsDigit(s[k])
  {
    if s == [] || !IsDigit(s[0]) then 0 else 1 + DigitRun(s[1..])
  }

  /** Reads an optionally signed decimal integer at the front of `s`. */
  function ReadInt(s: string): Option<(int, string)> {
    if |s| > 0 && s[0] == '-' then
      var k := DigitRun(s[1..]);
      var v: int := 0 - DigitsValue(s[1..][..k]) as int;
      if k == 0 then None else Some((v, s[1..][k..]))
    else
      var k := DigitRun(s);
      if k == 0 then None else Some((DigitsValue(s[..k]), s[k..]))
  }

  /** Reads "line:col" at the front of `s`. */
  function ReadPosition(s: string): Option<(Position, string)> {
    match ReadInt(s)
    case None => None
    case Some((line, rest)) =>
      if |rest| > 0 && rest[0] == ':' then
        match ReadInt(rest[1..])
        case None => None
        case Some((col, rest')) => Some((Position(line, col), rest'))
      else None
  }

  /** Reads back the text `Range.__str__` writes. */
  function ParseRange(s: string): Option<Range> {
    match ReadPosition(s)
    case None => None
    case Some((start, rest)) =>
      if |rest| > 0 && rest[0] == '-' then
        match ReadPosition(rest[1..])
        case Some((end, rest')) => if rest' == [] then Some(Range(start, end)) else None
        case None => None
      else None
  }

  lemma {:induction false} NatStringValue(n: nat)
    ensures DigitsValue(NatString(n)) == n
  {
    if n >= 10 {
      var s := NatString(n / 10) + [DigitChar(n % 10)];
      assert s[..|s| - 1] == NatString(n / 10);
      NatStringValue(n / 10);
    }
  }

  lemma {:induction false} DigitRunPrefix(d: string, rest: string)
    requires forall i :: 0 <= i < |d| ==> IsDigit(d[i])
    requires rest == [] || !IsDigit(rest[0])
    ensures DigitRun(d + rest) == |d|
    decreases |d|
  {
    if d != [] {
      assert (d + rest)[1..] == d[1..] + rest;
      DigitRunPrefix(d[1..], rest);
    } else {
      assert d + rest == rest;
    }
  }

  lemma ReadNatString(n: nat, rest: string)
    requires rest == [] || !IsDigit(rest[0])
    ensures ReadInt(NatString(n) + rest) == Some((n as int, rest))
  {
    var d := NatString(n);
    DigitRunPrefix(d, rest);
    NatStringValue(n);
    assert (d + rest)[0] == d[0];
    assert (d + rest)[..|d|] == d;
    assert (d + rest)[|d|..] == rest;
  }

  lemma ReadNegString(n: nat, rest: string)
    requires rest == [] || !IsDigit(rest[0])
    ensures ReadInt("-" + NatString(n) + rest) == Some((0 - n, rest))
  {
    var d := NatString(n);
    var s := "-" + d + rest;
    DigitRunPrefix(d, rest);
    NatStringValue(n);
    var t := s[1..];
    assert t == d + rest;
    assert t[..|d|] == d;
    assert t[|d|..] == rest;
    ReadNegStep(s, |d|);
  }

  /** The negative branch of `ReadInt`, on whatever string it meets. */
  lemma ReadNegStep(s: string, k: nat)
    requires |s| > 0 && s[0] == '-'
    requires DigitRun(s[1..]) == k > 0
    ensures ReadInt(s) == Some((0 - DigitsValue(s[1..][..k]), s[1..][k..]))
  {
  }

  lemma ReadIntString(i: int, rest: string)
    requires rest == [] || !IsDigit(rest[0])
    ensures ReadInt(IntString(i) + rest) == Some((i, rest))
  {
    if i < 0 {
      ReadNegString(-i, rest);
    } else {
      ReadNatString(i, rest);
    }
  }

  /** One reading step of `ReadPosition`, on whatever strings it meets. */
  lemma ReadPositionStep(s: string, line: int, rest: string, col: int, rest': string)
    requires ReadInt(s) == Some((line, rest))
    requires |rest| > 0 && rest[0] == ':'
    requires ReadInt(rest[1..]) == Some((col, rest'))
    ensures ReadPosition(s) == Some((Position(line, col), rest'))
  {
  }

  /** One reading step of `ParseRange`, on whatever strings it meets. */
  lemma ParseRangeStep(s: string, start: Position, rest: string, end: Position)
    requires ReadPosition(s) == Some((start, rest))
    requires |rest| > 0 && rest[0] == '-'
    requires ReadPosition(rest[1..]) == Some((end, ""))
    ensures ParseRange(s) == Some(Range(start, end))
  {
  }

  lemma ReadPositionString(p: Position, rest: string)
    requires rest == [] || rest[0] == '-'
    ensures ReadPosition(PositionString(p) + rest) == Some((p, rest))
  {
    var l, c := IntString(p.line), IntString(p.col);
    ReadIntString(p.line, ":" + (c + rest));
    ReadIntString(p.col, rest);
    ReadPositionParts(l, c, rest, p.line, p.col);
  }

  /** `ReadPosition` on "line:col" followed by `rest`, given what `ReadInt` reads from each part. */
  lemma ReadPositionParts(l: string, c: string, rest: string, line: int, col: int)
    requires ReadInt(l + (":" + (c + rest))) == Some((line, ":" + (c + rest)))
    requires ReadInt(c + rest) == Some((col, rest))
    ensures ReadPosition(l + ":" + c + rest) == Some((Position(line, col), rest))
  {
    var after := ":" + (c + rest);
    Regroup(l, ":", c, rest);
    Behind(":", c + rest);
    assert after[0] == ':';
    ReadPositionStep(l + after, line, after, col, rest);
  }

  lemma Regroup(a: string, b: string, c: string, d: string)
    ensures a + b + c + d == a + (b + (c + d))
  {
  }

  lemma Behind(a: string, b: string)
    requires |a| == 1
    ensures (a + b)[1..] == b
  {
  }

  /** `str(Range)` loses nothing: reading it back gives the range. */
  lemma RangeStringRoundTrip(r: Range)
    ensures ParseRange(RangeString(r)) == Some(r)
  {
    var e := PositionString(r.end);
    var tail := "-" + e;
    var s := RangeString(r);
    assert s == PositionString(r.start) + tail;
    ReadPositionString(r.start, tail);
    assert tail[1..] == e;
    PositionStringRoundTrip(r.end);
    ParseRangeStep(s, r.start, tail, r.end);
  }

  /** `str(Position)` loses nothing either. */
  lemma PositionStringRoundTrip(p: Position)
    ensures ReadPosition(PositionString(p)) == Some((p, ""))
  {
    ReadPositionString(p, []);
    assert PositionString(p) + [] == PositionString(p);
  }
}
