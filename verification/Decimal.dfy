/** Decimal numerals: Python's `str(n)` and `int(text)`. */
module Decimal {
  import opened Prelude
  import Text

  predicate IsDigit(c: char) {
    '0' <= c <= '9'
  }

  function DigitChar(d: nat): (c: char)
    requires d < 10
    ensures IsDigit(c) && DigitValue(c) == d
  {
    '0' + d as char
  }

  function DigitValue(c: char): nat
    requires IsDigit(c)
  {
    c as nat - '0' as nat
  }

  function ToDecimal(n: nat): (s: string)
    ensures |s| > 0 && forall i :: 0 <= i < |s| ==> IsDigit(s[i])
  {
    if n < 10 then [DigitChar(n)] else ToDecimal(n / 10) + [DigitChar(n % 10)]
  }

  function Value(s: string): nat
    requires forall i :: 0 <= i < |s| ==> IsDigit(s[i])
  {
    if s == [] then 0 else Value(s[..|s| - 1]) * 10 + DigitValue(s[|s| - 1])
  }

  /** str(n) */
  function IntText(n: int): string {
    if n < 0 then "-" + ToDecimal(-n) else ToDecimal(n)
  }

  predicate DigitOrUnderscore(s: string) {
    forall i :: 0 <= i < |s| ==> IsDigit(s[i]) || s[i] == '_'
  }

  /** Digits, with single underscores allowed between them. */
  predicate Grouped(s: string) {
    DigitOrUnderscore(s) && s != "" && s[0] != '_' && s[|s| - 1] != '_'
    && forall i :: 0 <= i < |s| - 1 ==> s[i] != '_' || s[i + 1] != '_'
  }

  function Ungrouped(s: string): (r: string)
    requires DigitOrUnderscore(s)
    ensures forall i :: 0 <= i < |r| ==> IsDigit(r[i])
  {
    if s == "" then "" else (if s[0] == '_' then "" else [s[0]]) + Ungrouped(s[1..])
  }

  function Magnitude(s: string): Option<nat> {
    if Grouped(s) then Some(Value(Ungrouped(s))) else None
  }

  /** The zeros of the scripts that have decimal digits (Unicode 14, general category Nd), ASCII aside. */
  const ZEROS: seq<int> := [
    0x660, 0x6f0, 0x7c0, 0x966, 0x9e6, 0xa66, 0xae6, 0xb66, 0xbe6, 0xc66, 0xce6, 0xd66, 0xde6, 0xe50, 0xed0, 0xf20,
    0x1040, 0x1090, 0x17e0, 0x1810, 0x1946, 0x19d0, 0x1a80, 0x1a90, 0x1b50, 0x1bb0, 0x1c40, 0x1c50, 0xa620, 0xa8d0,
    0xa900, 0xa9d0, 0xa9f0, 0xaa50, 0xabf0, 0xff10, 0x104a0, 0x10d30, 0x11066, 0x110f0, 0x11136, 0x111d0, 0x112f0,
    0x11450, 0x114d0, 0x11650, 0x116c0, 0x11730, 0x118e0, 0x11950, 0x11c50, 0x11d50, 0x11da0, 0x16a60, 0x16ac0,
    0x16b50, 0x1d7ce, 0x1d7d8, 0x1d7e2, 0x1d7ec, 0x1d7f6, 0x1e140, 0x1e2f0, 0x1e950, 0x1fbf0]

  function DigitIn(code: int, zeros: seq<int>): (digit: Option<nat>)
    ensures digit.Some? ==> digit.value < 10
  {
    if zeros == [] then None
    else if zeros[0] <= code < zeros[0] + 10 then Some(code - zeros[0])
    else DigitIn(code, zeros[1..])
  }

  /** What int() makes of a character before it reads the number: decimal digits of any script are digits, and white
      space outside ASCII is a space. A question mark stands for whatever else it refuses. */
  function Folded(c: char): char {
    if c as int < 127 then c
    else if Text.IsSpace(c) then ' '
    else match DigitIn(c as int, ZEROS)
      case Some(d) => DigitChar(d)
      case None => '?'
  }

  function Fold(s: string): string {
    seq(|s|, i requires 0 <= i < |s| => Folded(s[i]))
  }

  /** The white space int() skips around the number. */
  predicate IsBlank(c: char) {
    '\t' <= c <= '\r' || c == ' '
  }

  function TrimLeft(s: string): string {
    if s != "" && IsBlank(s[0]) then TrimLeft(s[1..]) else s
  }

  function TrimRight(s: string): string {
    if s != "" && IsBlank(s[|s| - 1]) then TrimRight(s[..|s| - 1]) else s
  }

  /** int(text): a sign, leading zeros and grouping underscores are read; None stands for ValueError. */
  function ParseInt(text: string): Option<int> {
    ParseAscii(TrimRight(TrimLeft(Fold(text))))
  }

  function ParseAscii(token: string): Option<int> {
    if token != "" && token[0] == '-' then Negated(Magnitude(token[1..]))
    else Magnitude(if token != "" && token[0] == '+' then token[1..] else token)
  }

  function Negated(m: Option<nat>): Option<int> {
    if m.None? then None else var v: int := m.value; Some(-v)
  }

  lemma {:induction false} UngroupedDigits(s: string)
    requires forall i :: 0 <= i < |s| ==> IsDigit(s[i])
    ensures Ungrouped(s) == s
  {
    if s != "" { UngroupedDigits(s[1..]); }
  }

  lemma MagnitudeOfDecimal(n: nat)
    ensures Magnitude(ToDecimal(n)) == Some(n)
  {
    var s := ToDecimal(n);
    assert DigitOrUnderscore(s) && !IsDigit('_');
    UngroupedDigits(s);
    ValueOfDecimal(n);
  }

  lemma {:induction false} ValueOfDecimal(n: nat)
    ensures Value(ToDecimal(n)) == n
  {
    var s := ToDecimal(n);
    if n < 10 {
      assert s == [DigitChar(n)] && s[..|s| - 1] == [];
      assert Value(s) == DigitValue(s[0]);
    } else {
      ValueOfDecimal(n / 10);
      assert s[..|s| - 1] == ToDecimal(n / 10);
    }
  }

  /** A numeral has nothing to fold and nothing to trim. */
  lemma NumeralIsPlain(n: int)
    ensures TrimRight(TrimLeft(Fold(IntText(n)))) == IntText(n)
  {
    var s := IntText(n);
    assert forall i :: 0 <= i < |s| ==> IsDigit(s[i]) || s[i] == '-';
    assert Fold(s) == s;
    assert s != "" && !IsBlank(s[0]) && !IsBlank(s[|s| - 1]);
  }

  /** Reading undoes writing. */
  lemma RoundTrip(n: int)
    ensures ParseInt(IntText(n)) == Some(n)
  {
    NumeralIsPlain(n);
    if n < 0 {
      MagnitudeOfDecimal(-n);
      assert IntText(n)[1..] == ToDecimal(-n);
    } else {
      MagnitudeOfDecimal(n);
      assert IsDigit(IntText(n)[0]);
    }
  }

  lemma IntTextInjective(a: int, b: int)
    requires IntText(a) == IntText(b)
    ensures a == b
  {
    RoundTrip(a);
    RoundTrip(b);
  }

  lemma {:induction false} ZeroKeepsValue(s: string)
    requires forall i :: 0 <= i < |s| ==> IsDigit(s[i])
    ensures Value("0" + s) == Value(s)
  {
    if s == [] {
      assert "0" + s == "0" && "0"[..0] == [];
    } else {
      assert ("0" + s)[..|s|] == "0" + s[..|s| - 1];
      ZeroKeepsValue(s[..|s| - 1]);
    }
  }

  /** Nothing to fold and nothing to trim. */
  lemma PlainToken(token: string)
    requires token != "" && !IsBlank(token[0]) && !IsBlank(token[|token| - 1])
    requires forall i :: 0 <= i < |token| ==> token[i] as int < 127
    ensures ParseInt(token) == ParseAscii(token)
  {
    assert Fold(token) == token;
  }

  lemma AllDigits(n: nat)
    ensures forall i :: 0 <= i < |"0" + ToDecimal(n)| ==> IsDigit(("0" + ToDecimal(n))[i])
  {
  }

  lemma PaddedMagnitude(n: nat)
    ensures Magnitude("0" + ToDecimal(n)) == Some(n)
  {
    hide ToDecimal;
    var padded := "0" + ToDecimal(n);
    AllDigits(n);
    ValueOfDecimal(n);
    ZeroKeepsValue(ToDecimal(n));
    UngroupedDigits(padded);
    assert DigitOrUnderscore(padded);
  }

  /** A plus sign is read over. */
  lemma PlusIsRead(n: nat)
    ensures ParseInt("+" + ToDecimal(n)) == Some(n)
  {
    hide ToDecimal, ParseInt, Magnitude;
    var token := "+" + ToDecimal(n);
    MagnitudeOfDecimal(n);
    PlainToken(token);
    assert token[1..] == ToDecimal(n);
  }

  /** And so are leading zeros, after a minus sign too. */
  lemma ZerosAreRead(n: nat)
    ensures ParseInt("0" + ToDecimal(n)) == Some(n)
    ensures ParseInt("-0" + ToDecimal(n)).Some? && ParseInt("-0" + ToDecimal(n)).value + n == 0
  {
    hide ToDecimal, ParseInt, Magnitude;
    var padded := "0" + ToDecimal(n);
    PaddedMagnitude(n);
    AllDigits(n);
    PlainToken(padded);
    PlainToken("-" + padded);
    assert ("-" + padded)[1..] == padded && "-" + padded == "-0" + ToDecimal(n);
  }

  lemma {:induction false} UngroupedAppend(a: string, b: string)
    requires DigitOrUnderscore(a) && DigitOrUnderscore(b)
    ensures DigitOrUnderscore(a + b) && Ungrouped(a + b) == Ungrouped(a) + Ungrouped(b)
    decreases |a|
  {
    if a == "" {
      assert a + b == b;
    } else {
      assert (a + b)[1..] == a[1..] + b;
      UngroupedAppend(a[1..], b);
    }
  }

  ghost predicate AllDigit(s: string) {
    forall i :: 0 <= i < |s| ==> IsDigit(s[i])
  }

  lemma UngroupedOnce(a: string, b: string)
    requires AllDigit(a) && AllDigit(b)
    ensures DigitOrUnderscore(a + "_" + b) && Ungrouped(a + "_" + b) == a + b
  {
    UngroupedDigits(a);
    UngroupedDigits(b);
    UnderscoreAlone();
    UngroupedAppend(a, "_");
    UngroupedAppend(a + "_", b);
    hide Ungrouped;
    assert Ungrouped(a + "_" + b) == Ungrouped(a) + Ungrouped("_") + Ungrouped(b);
    assert a + "" == a;
  }

  lemma UnderscoreAlone()
    ensures Ungrouped("_") == ""
  {
    assert "_"[1..] == "";
  }

  lemma GroupedOnce(a: string, b: string)
    requires a != "" && b != "" && AllDigit(a) && AllDigit(b)
    ensures Grouped(a + "_" + b)
  {
    var s := a + "_" + b;
    forall i | 0 <= i < |s| ensures if i == |a| then s[i] == '_' else IsDigit(s[i]) {
      if i < |a| { assert s[i] == a[i]; }
      if i > |a| { assert s[i] == b[i - |a| - 1]; }
    }
  }

  /** One underscore may stand between digits. */
  lemma UnderscoreIsRead(a: string, b: string)
    requires a != "" && b != "" && AllDigit(a) && AllDigit(b)
    ensures AllDigit(a + b) && Magnitude(a + "_" + b) == Some(Value(a + b))
  {
    hide Grouped, Ungrouped;
    UngroupedOnce(a, b);
    GroupedOnce(a, b);
  }

  /** Two may not, nor one at either end. */
  lemma UnderscoresRefused(a: string, b: string)
    ensures Magnitude(a + "__" + b) == None && Magnitude("_" + b) == None && Magnitude(a + "_") == None
  {
    var s := a + "__" + b;
    assert s[|a|] == '_' && s[|a| + 1] == '_';
    assert (a + "_")[|a|] == '_' && ("_" + b)[0] == '_';
  }

  /** No number: nothing at all, a lone sign, or any character that is neither a digit nor a well-placed underscore. */
  lemma NotANumber(front: string, c: char, rest: string)
    requires !IsDigit(c) && c != '_' && c as int < 127 && !IsBlank(c)
    requires front != "" && rest != "" && !IsBlank(front[0]) && !IsBlank(rest[|rest| - 1])
    requires forall i :: 0 <= i < |front + rest| ==> (front + rest)[i] as int < 127
    ensures ParseInt("") == ParseInt("+") == ParseInt("-") == None
    ensures ParseInt(front + [c] + rest) == None
  {
    assert Fold("") == "";
    PlainToken("+");
    PlainToken("-");
    var token := front + [c] + rest;
    forall i | 0 <= i < |token| ensures token[i] as int < 127 {
      if i < |front| {
        assert token[i] == (front + rest)[i];
      } else if i > |front| {
        assert token[i] == (front + rest)[i - 1];
      }
    }
    PlainToken(token);
    assert token[|front|] == c && token[1..][|front| - 1] == c;
  }
}
