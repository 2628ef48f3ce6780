/** Quoted strings on lines of text: how they are written, found again, and read. */
module Quoting {
  import opened Text

  const QUOTE: byte := 34
  const BACKSLASH: byte := 92
  const TAB: byte := 9
  const FORMFEED: byte := 12
  const RETURN: byte := 13

  predicate IsSpace(b: byte) {
    b == SPACE || 9 <= b <= 10 || 12 <= b <= 13
  }

  // ---------- writing ----------

  /** Colons, quotes, backslashes, blanks and control characters, and what is negative as a char. */
  predicate NeedsQuotes(b: byte) {
    b == 58 || b == 39 || b == BACKSLASH || b == QUOTE || b <= SPACE || b >= 127
  }

  function Escape(b: byte): seq<byte> {
    if b == TAB then [BACKSLASH, 116]
    else if b == NEWLINE then [BACKSLASH, 110]
    else if b == RETURN then [BACKSLASH, 114]
    else if b == FORMFEED then [BACKSLASH, 102]
    else if b == BACKSLASH || b == QUOTE then [BACKSLASH, b]
    else [b]
  }

  function EscapeAll(s: seq<byte>): seq<byte> {
    if s == [] then [] else Escape(s[0]) + EscapeAll(s[1..])
  }

  predicate Plain(s: seq<byte>) {
    forall i | 0 <= i < |s| :: !NeedsQuotes(s[i])
  }

  function Quote(s: seq<byte>): (q: seq<byte>)
    ensures q != []
  {
    if s == [] || !Plain(s) then [QUOTE] + EscapeAll(s) + [QUOTE] else s
  }

  // ---------- reading ----------

  predicate IsOctal(b: byte) { 48 <= b <= 55 }

  /** The octal digits at the front, at most n of them. */
  function OctalLength(s: seq<byte>, n: nat): (k: nat)
    ensures k <= |s| && k <= n
  {
    if n == 0 || s == [] || !IsOctal(s[0]) then 0 else 1 + OctalLength(s[1..], n - 1)
  }

  /** Their value as a char. */
  function OctalValue(s: seq<byte>, c: byte): byte {
    if s == [] then c else OctalValue(s[1..], (8 * (c as int) + (s[0] as int) + 256 - 48) % 256)
  }

  /** Quotes are dropped wherever they are; after an octal escape the next byte is copied as it is. */
  function Unquote(s: seq<byte>): seq<byte>
    decreases |s|
  {
    if s == [] then []
    else if s[0] == QUOTE then Unquote(s[1..])
    else if s[0] != BACKSLASH then [s[0]] + Unquote(s[1..])
    else if |s| == 1 then []
    else if s[1] == 110 then [NEWLINE] + Unquote(s[2..])
    else if s[1] == 116 then [TAB] + Unquote(s[2..])
    else if s[1] == 114 then [RETURN] + Unquote(s[2..])
    else if s[1] == 102 then [FORMFEED] + Unquote(s[2..])
    else if IsOctal(s[1]) then
      var k := OctalLength(s[1..], 3);
      var c := OctalValue(s[1..1 + k], 0);
      (if c != 0 then [c] else []) + if 1 + k < |s| then [s[1 + k]] + Unquote(s[2 + k..]) else []
    else [s[1]] + Unquote(s[2..])
  }

  /** The length of the quoted string at the front: up to the first blank outside quotes. */
  function SkipQuoted(s: seq<byte>, inQuotes: bool): (n: nat)
    ensures n <= |s|
    decreases |s|
  {
    if s == [] || (!inQuotes && IsSpace(s[0])) then 0
    else if s[0] == QUOTE then 1 + SkipQuoted(s[1..], !inQuotes)
    else if s[0] == BACKSLASH && |s| > 1 then 2 + SkipQuoted(s[2..], inQuotes)
    else 1 + SkipQuoted(s[1..], inQuotes)
  }

  datatype Line = Line(text: seq<byte>, rest: seq<byte>)

  /** One line of input after text: newlines in quotes belong to it, and an escaped newline and its
      backslash are left out. */
  function Agets(s: seq<byte>, inQuotes: bool, escape: bool, text: seq<byte>): (l: Line)
    requires escape ==> text != []
    ensures |l.rest| <= |s|
    ensures s != [] && text == [] ==> |l.rest| < |s|
    decreases |s|
  {
    if s == [] then Line(text, [])
    else if s[0] == NEWLINE && !inQuotes then
      if escape then Agets(s[1..], inQuotes, false, text[..|text| - 1]) else Line(text, s[1..])
    else
      Agets(s[1..],
            if s[0] == QUOTE && !escape then !inQuotes else inQuotes,
            s[0] == BACKSLASH && !escape,
            text + [s[0]])
  }

  /** All lines of a text. */
  function Lines(s: seq<byte>): seq<seq<byte>>
    decreases |s|
  {
    if s == [] then []
    else
      var l := Agets(s, false, false, []);
      [l.text] + Lines(l.rest)
  }

  // ---------- round trips ----------

  /** Every byte's escape reads back as the byte. */
  lemma UnquoteEscape(b: byte, rest: seq<byte>)
    ensures Unquote(Escape(b) + rest) == [b] + Unquote(rest)
  {
    var s := Escape(b) + rest;
    if |Escape(b)| == 1 {
      assert s[1..] == rest;
    } else {
      assert s[2..] == rest;
    }
  }

  lemma {:induction false} UnquoteEscapeAll(s: seq<byte>, rest: seq<byte>)
    ensures Unquote(EscapeAll(s) + rest) == s + Unquote(rest)
  {
    hide Unquote, Escape;
    if s == [] {
      assert EscapeAll(s) + rest == rest;
    } else {
      assert EscapeAll(s) + rest == Escape(s[0]) + (EscapeAll(s[1..]) + rest);
      UnquoteEscape(s[0], EscapeAll(s[1..]) + rest);
      UnquoteEscapeAll(s[1..], rest);
    }
  }

  lemma {:induction false} UnquotePlain(s: seq<byte>)
    requires Plain(s)
    ensures Unquote(s) == s
  {
    if s != [] {
      UnquotePlain(s[1..]);
    }
  }

  /** Unquoting inverts quoting, for every string. */
  lemma QuoteRoundTrip(s: seq<byte>)
    ensures Unquote(Quote(s)) == s
  {
    if s == [] || !Plain(s) {
      UnquoteEscapeAll(s, [QUOTE]);
      assert Unquote([QUOTE]) == [];
      assert ([QUOTE] + EscapeAll(s) + [QUOTE])[1..] == EscapeAll(s) + [QUOTE];
    } else {
      UnquotePlain(s);
    }
  }

  lemma SkipEscape(b: byte, rest: seq<byte>)
    ensures SkipQuoted(Escape(b) + rest, true) == |Escape(b)| + SkipQuoted(rest, true)
  {
    var s := Escape(b) + rest;
    if |Escape(b)| == 1 {
      assert s[1..] == rest;
    } else {
      assert s[2..] == rest;
    }
  }

  lemma {:induction false} SkipEscapeAll(s: seq<byte>, rest: seq<byte>)
    ensures SkipQuoted(EscapeAll(s) + rest, true) == |EscapeAll(s)| + SkipQuoted(rest, true)
  {
    hide SkipQuoted, Escape;
    if s == [] {
      assert EscapeAll(s) + rest == rest;
    } else {
      assert EscapeAll(s) + rest == Escape(s[0]) + (EscapeAll(s[1..]) + rest);
      SkipEscape(s[0], EscapeAll(s[1..]) + rest);
      SkipEscapeAll(s[1..], rest);
    }
  }

  lemma {:induction false} SkipPlain(s: seq<byte>, rest: seq<byte>)
    requires Plain(s)
    ensures SkipQuoted(s + rest, false) == |s| + SkipQuoted(rest, false)
  {
    if s == [] {
      assert s + rest == rest;
    } else {
      assert (s + rest)[1..] == s[1..] + rest;
      SkipPlain(s[1..], rest);
    }
  }

  /** A quoted string followed by a blank is found whole. */
  lemma QuotedFound(s: seq<byte>, rest: seq<byte>)
    ensures SkipQuoted(Quote(s) + ([SPACE] + rest), false) == |Quote(s)|
  {
    FoundBefore(s, [SPACE] + rest);
  }

  /** So it is before any white space, and at the end. */
  lemma FoundBefore(s: seq<byte>, after: seq<byte>)
    requires after == [] || IsSpace(after[0])
    ensures SkipQuoted(Quote(s) + after, false) == |Quote(s)|
  {
    assert SkipQuoted(after, false) == 0;
    if s == [] || !Plain(s) {
      EscapedFound(s, after);
    } else {
      SkipPlain(s, after);
    }
  }

  lemma EscapedFound(s: seq<byte>, after: seq<byte>)
    requires SkipQuoted(after, false) == 0
    ensures SkipQuoted([QUOTE] + EscapeAll(s) + [QUOTE] + after, false) == |EscapeAll(s)| + 2
  {
    hide SkipQuoted, EscapeAll;
    var inner := EscapeAll(s) + ([QUOTE] + after);
    assert [QUOTE] + EscapeAll(s) + [QUOTE] + after == [QUOTE] + inner;
    SkipQuote(inner, false);
    SkipEscapeAll(s, [QUOTE] + after);
    SkipQuote(after, true);
  }

  lemma SkipQuote(rest: seq<byte>, inQuotes: bool)
    ensures SkipQuoted([QUOTE] + rest, inQuotes) == 1 + SkipQuoted(rest, !inQuotes)
  {
    assert ([QUOTE] + rest)[1..] == rest;
  }

  // ---------- lines ----------

  /** Bytes that end no line and begin no quote. */
  predicate Bland(s: seq<byte>) {
    forall i | 0 <= i < |s| :: s[i] != NEWLINE && s[i] != QUOTE && s[i] != BACKSLASH
  }

  lemma {:induction false} AgetsBland(s: seq<byte>, rest: seq<byte>, text: seq<byte>)
    requires Bland(s)
    ensures Agets(s + rest, false, false, text) == Agets(rest, false, false, text + s)
  {
    if s == [] {
      assert s + rest == rest && text + s == text;
    } else {
      assert (s + rest)[1..] == s[1..] + rest;
      AgetsBland(s[1..], rest, text + [s[0]]);
      assert text + [s[0]] + s[1..] == text + s;
    }
  }

  lemma AgetsEscape(b: byte, rest: seq<byte>, text: seq<byte>)
    ensures Agets(Escape(b) + rest, true, false, text) == Agets(rest, true, false, text + Escape(b))
  {
    var s := Escape(b) + rest;
    if |Escape(b)| == 1 {
      assert s[1..] == rest;
    } else {
      assert s[1..] == [Escape(b)[1]] + rest;
      assert s[1..][1..] == rest;
      assert text + [BACKSLASH] + [Escape(b)[1]] == text + Escape(b);
    }
  }

  lemma {:induction false} AgetsEscapeAll(s: seq<byte>, rest: seq<byte>, text: seq<byte>)
    ensures Agets(EscapeAll(s) + rest, true, false, text) == Agets(rest, true, false, text + EscapeAll(s))
  {
    hide Agets, Escape;
    if s == [] {
      assert EscapeAll(s) + rest == rest && text + EscapeAll(s) == text;
    } else {
      assert EscapeAll(s) + rest == Escape(s[0]) + (EscapeAll(s[1..]) + rest);
      AgetsEscape(s[0], EscapeAll(s[1..]) + rest, text);
      AgetsEscapeAll(s[1..], rest, text + Escape(s[0]));
      assert text + Escape(s[0]) + EscapeAll(s[1..]) == text + EscapeAll(s);
    }
  }

  lemma AgetsQuote(rest: seq<byte>, text: seq<byte>, inQuotes: bool)
    ensures Agets([QUOTE] + rest, inQuotes, false, text) == Agets(rest, !inQuotes, false, text + [QUOTE])
  {
    assert ([QUOTE] + rest)[1..] == rest;
  }

  lemma AgetsQuoted(s: seq<byte>, rest: seq<byte>)
    ensures Agets(Quote(s) + rest, false, false, []) == Agets(rest, false, false, Quote(s))
  {
    hide Agets;
    if s == [] || !Plain(s) {
      assert Quote(s) + rest == [QUOTE] + (EscapeAll(s) + ([QUOTE] + rest));
      AgetsQuote(EscapeAll(s) + ([QUOTE] + rest), [], false);
      assert [] + [QUOTE] == [QUOTE];
      AgetsEscapeAll(s, [QUOTE] + rest, [QUOTE]);
      AgetsQuote(rest, [QUOTE] + EscapeAll(s), true);
    } else {
      AgetsBland(s, rest, []);
      assert [] + s == s;
    }
  }

  /** A line that begins with a quoted string and goes on without quotes is read whole. */
  lemma LineRead(s: seq<byte>, tail: seq<byte>, rest: seq<byte>)
    requires Bland(tail)
    ensures Agets(Quote(s) + tail + [NEWLINE] + rest, false, false, []) == Line(Quote(s) + tail, rest)
  {
    hide Quote;
    assert Quote(s) + tail + [NEWLINE] + rest == Quote(s) + (tail + ([NEWLINE] + rest));
    AgetsQuoted(s, tail + ([NEWLINE] + rest));
    AgetsBland(tail, [NEWLINE] + rest, Quote(s));
    assert ([NEWLINE] + rest)[1..] == rest;
  }

  // ---------- what else these do ----------

  lemma {:induction false} EscapesEndNoLine(s: seq<byte>)
    ensures NEWLINE !in EscapeAll(s) && |EscapeAll(s)| >= |s|
  {
    if s != [] {
      EscapesEndNoLine(s[1..]);
    }
  }

  /** A string is written as it is exactly if it is not empty and has only visible ASCII characters other
      than colons, quotes and backslashes; otherwise between quotes, and never over a line's end. */
  lemma QuotedExactly(s: seq<byte>)
    ensures Quote(s) == s <==>
      s != [] && forall i | 0 <= i < |s| :: 32 < s[i] < 127 && s[i] != 58 && s[i] != 39 && s[i] != 34 && s[i] != 92
    ensures Quote(s) != s ==> Quote(s)[0] == QUOTE && Quote(s)[|Quote(s)| - 1] == QUOTE
    ensures NEWLINE !in Quote(s)
  {
    EscapesEndNoLine(s);
  }

  /** Three octal digits are one byte, left out if it is 0, and the byte after them is copied whatever it is. */
  lemma OctalRead(a: byte, b: byte, c: byte, next: byte, rest: seq<byte>)
    requires IsOctal(a) && IsOctal(b) && IsOctal(c)
    ensures var v := OctalOf(a, b, c);
      Unquote([BACKSLASH] + ([a, b, c] + ([next] + rest))) == (if v != 0 then [v] else []) + ([next] + Unquote(rest))
  {
    var more := [next] + rest;
    var s := [BACKSLASH] + ([a, b, c] + more);
    assert s[1..] == [a, b, c] + more;
    assert OctalLength(s[1..], 3) == 3 by { ThreeDigits(a, b, c, more); }
    assert s[1..4] == [a, b, c] && s[4] == next && s[5..] == rest;
    OctalThree(a, b, c);
    hide OctalValue, OctalLength, OctalOf;
  }

  /** What three octal digits stand for, as a char. */
  function OctalOf(a: byte, b: byte, c: byte): byte
    requires IsOctal(a) && IsOctal(b) && IsOctal(c)
  {
    (64 * ((a as int) - 48) + 8 * ((b as int) - 48) + (c as int) - 48) % 256
  }

  lemma LengthFirst(d: byte, rest: seq<byte>, n: nat)
    requires IsOctal(d) && n > 0
    ensures OctalLength([d] + rest, n) == 1 + OctalLength(rest, n - 1)
  {
    assert ([d] + rest)[1..] == rest;
  }

  lemma ThreeDigits(a: byte, b: byte, c: byte, more: seq<byte>)
    requires IsOctal(a) && IsOctal(b) && IsOctal(c)
    ensures OctalLength([a, b, c] + more, 3) == 3
  {
    assert OctalLength(more, 0) == 0;
    hide OctalLength;
    LengthFirst(c, more, 1);
    LengthFirst(b, [c] + more, 2);
    LengthFirst(a, [b] + ([c] + more), 3);
    assert [a, b, c] + more == [a] + ([b] + ([c] + more));
  }

  lemma ValueFirst(d: byte, rest: seq<byte>, c: byte)
    requires IsOctal(d) && c < 64
    ensures var v := 8 * (c as int) + (d as int) - 48;
      OctalValue([d] + rest, c) == OctalValue(rest, if v < 256 then v else v - 256)
  {
    assert ([d] + rest)[1..] == rest;
    CharOf(8 * (c as int) + (d as int) - 48);
    ValueStep([d] + rest, c);
    hide OctalValue;
  }

  lemma ValueStep(s: seq<byte>, c: byte)
    requires s != []
    ensures OctalValue(s, c) == OctalValue(s[1..], (8 * (c as int) + (s[0] as int) + 256 - 48) % 256)
  {}

  lemma CharOf(v: nat)
    requires v < 512
    ensures (v + 256) % 256 == if v < 256 then v else v - 256
  {}

  lemma OctalThree(a: byte, b: byte, c: byte)
    requires IsOctal(a) && IsOctal(b) && IsOctal(c)
    ensures OctalValue([a, b, c], 0) == OctalOf(a, b, c)
  {
    var x := (a as int) - 48;
    var y := 8 * x + (b as int) - 48;
    var z := 8 * y + (c as int) - 48;
    assert OctalValue([], if z < 256 then z else z - 256) == if z < 256 then z else z - 256;
    hide OctalValue;
    ValueFirst(a, [b, c], 0);
    ValueFirst(b, [c], x);
    ValueFirst(c, [], y);
    assert [a, b, c] == [a] + [b, c] && [b, c] == [b] + [c] && [c] == [c] + [];
  }

  /** A newline after a backslash, outside quotes, joins two lines; both are left out. */
  lemma LinesJoined(a: seq<byte>, b: seq<byte>, rest: seq<byte>)
    requires Bland(a) && Bland(b)
    ensures Agets(a + ([BACKSLASH, NEWLINE] + (b + ([NEWLINE] + rest))), false, false, []) == Line(a + b, rest)
  {
    hide Agets;
    AgetsBland(a, [BACKSLASH, NEWLINE] + (b + ([NEWLINE] + rest)), []);
    assert [] + a == a;
    Joined(b + ([NEWLINE] + rest), a);
    AgetsBland(b, [NEWLINE] + rest, a);
    LineEnds(rest, a + b);
  }

  lemma Joined(rest: seq<byte>, text: seq<byte>)
    ensures Agets([BACKSLASH, NEWLINE] + rest, false, false, text) == Agets(rest, false, false, text)
  {
    var s := [BACKSLASH, NEWLINE] + rest;
    assert s[1..] == [NEWLINE] + rest && s[1..][1..] == rest;
    assert (text + [BACKSLASH])[..|text|] == text;
    assert Agets(s, false, false, text) == Agets(s[1..], false, true, text + [BACKSLASH]);
  }

  lemma LineEnds(rest: seq<byte>, text: seq<byte>)
    ensures Agets([NEWLINE] + rest, false, false, text) == Line(text, rest)
  {
    assert ([NEWLINE] + rest)[1..] == rest;
  }
}
