/** The Python string operations the provenance parser relies on. */
module Text {
  /** str.isspace on one character. */
  predicate IsSpace(c: char) {
    var n := c as int;
    0x09 <= n <= 0x0d || 0x1c <= n <= 0x20 || n == 0x85 || n == 0xa0 || n == 0x1680 || 0x2000 <= n <= 0x200a
    || n == 0x2028 || n == 0x2029 || n == 0x202f || n == 0x205f || n == 0x3000
  }

  /** Where str.splitlines breaks. */
  predicate IsBreak(c: char) {
    var n := c as int;
    0x0a <= n <= 0x0d || 0x1c <= n <= 0x1e || n == 0x85 || n == 0x2028 || n == 0x2029
  }

  ghost predicate NoBreak(s: string) {
    forall i :: 0 <= i < |s| ==> !IsBreak(s[i])
  }

  ghost predicate NoSpace(s: string) {
    forall i :: 0 <= i < |s| ==> !IsSpace(s[i])
  }

  ghost predicate AllSpace(s: string) {
    forall i :: 0 <= i < |s| ==> IsSpace(s[i])
  }

  // ----- strip -----

  function StripLeft(s: string): string {
    if s != "" && IsSpace(s[0]) then StripLeft(s[1..]) else s
  }

  function StripRight(s: string): string {
    if s != "" && IsSpace(s[|s| - 1]) then StripRight(s[..|s| - 1]) else s
  }

  function Strip(s: string): string {
    StripRight(StripLeft(s))
  }

  lemma {:induction false} StripLeftSpaces(w: string, s: string)
    requires AllSpace(w)
    ensures StripLeft(w + s) == StripLeft(s)
  {
    if w == "" {
      assert w + s == s;
    } else {
      assert (w + s)[1..] == w[1..] + s;
      StripLeftSpaces(w[1..], s);
    }
  }

  lemma {:induction false} StripRightSpaces(s: string, w: string)
    requires AllSpace(w)
    ensures StripRight(s + w) == StripRight(s)
    decreases |w|
  {
    if w == "" {
      assert s + w == s;
    } else {
      assert (s + w)[..|s + w| - 1] == s + w[..|w| - 1];
      StripRightSpaces(s, w[..|w| - 1]);
    }
  }

  /** Stripping on the left commutes with a tail that follows something visible. */
  lemma {:induction false} StripLeftKeepsTail(s: string, w: string)
    requires !AllSpace(s)
    ensures StripLeft(s + w) == StripLeft(s) + w && StripLeft(s) != ""
  {
    if IsSpace(s[0]) {
      assert (s + w)[1..] == s[1..] + w;
      assert !AllSpace(s[1..]) by {
        var i :| 0 <= i < |s| && !IsSpace(s[i]);
        assert s[1..][i - 1] == s[i];
      }
      StripLeftKeepsTail(s[1..], w);
    }
  }

  lemma {:induction false} StripOfSpace(s: string)
    requires AllSpace(s)
    ensures StripLeft(s) == ""
  {
    if s != "" { StripOfSpace(s[1..]); }
  }

  /** A trailing space never shows. */
  lemma StripIgnoresTail(s: string, w: string)
    requires AllSpace(w)
    ensures Strip(s + w) == Strip(s)
  {
    if AllSpace(s) {
      StripOfSpace(s);
      StripOfSpace(s + w);
    } else {
      StripLeftKeepsTail(s, w);
      StripRightSpaces(StripLeft(s), w);
    }
  }

  lemma StripIgnoresHead(w: string, s: string)
    requires AllSpace(w)
    ensures Strip(w + s) == Strip(s)
  {
    StripLeftSpaces(w, s);
  }

  /** Strip removes spaces at both ends and nothing else. */
  lemma {:induction false} StripRightSplits(s: string) returns (w: string)
    ensures s == StripRight(s) + w && AllSpace(w)
    decreases |s|
  {
    if s != "" && IsSpace(s[|s| - 1]) {
      w := StripRightSplits(s[..|s| - 1]);
      assert s == s[..|s| - 1] + [s[|s| - 1]];
      w := w + [s[|s| - 1]];
    } else {
      w := "";
    }
  }

  lemma {:induction false} StripRightKeepsHead(h: string, s: string)
    requires !AllSpace(s)
    ensures StripRight(h + s) == h + StripRight(s)
    decreases |s|
  {
    var last := |s| - 1;
    if IsSpace(s[last]) {
      assert (h + s)[..|h + s| - 1] == h + s[..last];
      assert !AllSpace(s[..last]) by {
        var i :| 0 <= i < |s| && !IsSpace(s[i]);
        assert s[..last][i] == s[i];
      }
      StripRightKeepsHead(h, s[..last]);
    }
  }

  lemma {:induction false} StripRightOfSpace(h: string, w: string)
    requires AllSpace(w) && (h == "" || !IsSpace(h[|h| - 1]))
    ensures StripRight(h + w) == h
  {
    StripRightSpaces(h, w);
  }

  // ----- split()[0] -----

  function UpToSpace(s: string): string {
    if s == "" || IsSpace(s[0]) then "" else [s[0]] + UpToSpace(s[1..])
  }

  /** The first whitespace-separated token, or the empty string. */
  function FirstToken(s: string): string {
    UpToSpace(StripLeft(s))
  }

  lemma {:induction false} TokenBeforeSpace(token: string, rest: string)
    requires NoSpace(token) && (rest == "" || IsSpace(rest[0]))
    ensures UpToSpace(token + rest) == token
  {
    if token == "" {
      assert token + rest == rest;
    } else {
      assert (token + rest)[1..] == token[1..] + rest;
      TokenBeforeSpace(token[1..], rest);
    }
  }

  // ----- splitlines -----

  /** Length of the first line. */
  function LineLength(s: string): (k: nat)
    ensures k <= |s| && NoBreak(s[..k]) && (k < |s| ==> IsBreak(s[k]))
  {
    if s == "" || IsBreak(s[0]) then 0 else
      var k := 1 + LineLength(s[1..]);
      assert s[..k] == [s[0]] + s[1..][..k - 1];
      k
  }

  /** Length of the break at `k`: "\r\n" counts as one. */
  function BreakLength(s: string, k: nat): (n: nat)
    requires k < |s|
    ensures 1 <= n <= 2 && k + n <= |s|
  {
    if s[k] as int == 0x0d && k + 1 < |s| && s[k + 1] as int == 0x0a then 2 else 1
  }

  function Lines(s: string): seq<string>
    decreases |s|
  {
    if s == "" then [] else
      var k := LineLength(s);
      if k == |s| then [s] else [s[..k]] + Lines(s[k + BreakLength(s, k)..])
  }

  lemma {:induction false} LineLengthIs(line: string, rest: string)
    requires NoBreak(line) && (rest == "" || IsBreak(rest[0]))
    ensures LineLength(line + rest) == |line|
  {
    if line == "" {
      assert line + rest == rest;
    } else {
      assert (line + rest)[1..] == line[1..] + rest;
      LineLengthIs(line[1..], rest);
    }
  }

  /** One line ended by a line feed. */
  /** A line and what is left of the text after its break. */
  lemma LineUpToBreak(line: string, tail: string)
    requires NoBreak(line) && tail != "" && IsBreak(tail[0])
    ensures Lines(line + tail) == [line] + Lines(tail[BreakLength(tail, 0)..])
  {
    LineUpTo(line, tail);
    var s, k := line + tail, |line|;
    assert s[k] == tail[0] && (|tail| > 1 ==> s[k + 1] == tail[1]);
    assert BreakLength(s, k) == BreakLength(tail, 0);
    assert s[k + BreakLength(s, k)..] == tail[BreakLength(tail, 0)..];
  }

  /** Where lines end: at any of these characters. */
  lemma LineEnds(line: string, mark: char, rest: string)
    requires NoBreak(line)
    requires mark in "\n\r\U{b}\U{c}\U{1c}\U{1d}\U{1e}\U{85}\U{2028}\U{2029}"
    requires mark == '\r' ==> rest == "" || rest[0] != '\n'
    ensures Lines(line + ([mark] + rest)) == [line] + Lines(rest)
  {
    hide Lines;
    LineUpToBreak(line, [mark] + rest);
    assert ([mark] + rest)[1..] == rest;
  }

  /** A carriage return and its line feed end one line together. */
  lemma LineEndsOnce(line: string, rest: string)
    requires NoBreak(line)
    ensures Lines(line + ("\r\n" + rest)) == [line] + Lines(rest)
  {
    hide Lines;
    LineUpToBreak(line, "\r\n" + rest);
    assert ("\r\n" + rest)[2..] == rest;
  }

  lemma LineUpTo(line: string, tail: string)
    requires NoBreak(line) && tail != "" && IsBreak(tail[0])
    ensures LineLength(line + tail) == |line| && (line + tail)[..|line|] == line
  {
    LineLengthIs(line, tail);
  }

  lemma OnlyBreaks(c: char)
    ensures IsBreak(c) ==> c in "\n\r\U{b}\U{c}\U{1c}\U{1d}\U{1e}\U{85}\U{2028}\U{2029}"
  {
    var marks := "\n\r\U{b}\U{c}\U{1c}\U{1d}\U{1e}\U{85}\U{2028}\U{2029}";
    assert marks[0] as int == 0xa && marks[1] as int == 0xd && marks[2] as int == 0xb && marks[3] as int == 0xc;
    assert marks[4] as int == 0x1c && marks[5] as int == 0x1d && marks[6] as int == 0x1e && marks[7] as int == 0x85;
    assert marks[8] as int == 0x2028 && marks[9] as int == 0x2029;
    if IsBreak(c) {
      var k := if c as int == 0xa then 0 else if c as int == 0xd then 1 else if c as int == 0xb then 2
               else if c as int == 0xc then 3 else if c as int == 0x1c then 4 else if c as int == 0x1d then 5
               else if c as int == 0x1e then 6 else if c as int == 0x85 then 7 else if c as int == 0x2028 then 8 else 9;
      assert marks[k] == c;
    }
  }

  /** And nowhere else. */
  lemma NoOtherEnd(line: string)
    requires forall c :: c in line ==> c !in "\n\r\U{b}\U{c}\U{1c}\U{1d}\U{1e}\U{85}\U{2028}\U{2029}"
    ensures Lines(line) == if line == "" then [] else [line]
  {
    forall i | 0 <= i < |line| ensures !IsBreak(line[i]) {
      assert line[i] in line;
      OnlyBreaks(line[i]);
    }
    LineLengthIs(line, "");
    assert line + "" == line;
  }

  lemma FirstLine(line: string, rest: string)
    requires NoBreak(line)
    ensures Lines(line + "\n" + rest) == [line] + Lines(rest)
  {
    var s := line + "\n" + rest;
    assert s == line + ("\n" + rest);
    LineLengthIs(line, "\n" + rest);
    assert s[|line|] == '\n' && s[..|line|] == line && s[|line| + 1..] == rest;
  }

  // ----- split on a separator -----

  function IndexOf(s: string, c: char): (k: nat)
    ensures k <= |s| && (k < |s| ==> s[k] == c) && forall i :: 0 <= i < k ==> s[i] != c
  {
    if s == "" || s[0] == c then 0 else 1 + IndexOf(s[1..], c)
  }

  function Split(s: string, c: char): seq<string>
    decreases |s|
  {
    var k := IndexOf(s, c);
    if k == |s| then [s] else [s[..k]] + Split(s[k + 1..], c)
  }

  lemma FirstPiece(piece: string, c: char, rest: string)
    requires c !in piece
    ensures Split(piece + [c] + rest, c) == [piece] + Split(rest, c)
  {
    var s := piece + [c] + rest;
    assert s[|piece|] == c && s[..|piece|] == piece && s[|piece| + 1..] == rest;
    assert forall i :: 0 <= i < |piece| ==> s[i] == piece[i] && piece[i] in piece;
    assert IndexOf(s, c) == |piece|;
  }

  lemma OnlyPiece(piece: string, c: char)
    requires c !in piece
    ensures Split(piece, c) == [piece]
  {
    assert forall i :: 0 <= i < |piece| ==> piece[i] in piece;
    assert IndexOf(piece, c) == |piece|;
  }
}
