/** Bytes, C strings and decimal numbers. */
module Text {
  type byte = b: int | 0 <= b < 256

  const NUL: byte := 0
  const NEWLINE: byte := 10
  const SPACE: byte := 32
  const MINUS: byte := 45

  datatype Option<+T> = None | Some(value: T)

  /** The C string at the front of a buffer. */
  function CString(s: seq<byte>): (r: seq<byte>)
    ensures r <= s
    ensures NUL !in s ==> r == s
  {
    if s == [] || s[0] == NUL then [] else [s[0]] + CString(s[1..])
  }

  predicate IsDigit(b: byte) { 48 <= b <= 57 }

  /** The decimal number at the front of b, continuing a number n. */
  function Decimal(n: nat, b: seq<byte>): nat
    decreases |b|
  {
    if b == [] || !IsDigit(b[0]) then n else Decimal(10 * n + (b[0] - 48), b[1..])
  }

  function Digits(n: nat): (d: seq<byte>)
    ensures d != []
    ensures forall i | 0 <= i < |d| :: IsDigit(d[i])
  {
    if n < 10 then [48 + n] else Digits(n / 10) + [48 + n % 10]
  }

  lemma {:induction false} DecimalAppend(n: nat, x: seq<byte>, y: seq<byte>)
    requires forall i | 0 <= i < |x| :: IsDigit(x[i])
    ensures Decimal(n, x + y) == Decimal(Decimal(n, x), y)
    decreases |x|
  {
    if x == [] {
      assert x + y == y;
    } else {
      assert (x + y)[1..] == x[1..] + y;
      DecimalAppend(10 * n + (x[0] - 48), x[1..], y);
    }
  }

  /** Reading back a printed number. */
  lemma {:induction false} DecimalDigits(n: nat, rest: seq<byte>)
    requires rest == [] || !IsDigit(rest[0])
    ensures Decimal(0, Digits(n) + rest) == n
  {
    if n < 10 {
      assert (Digits(n) + rest)[1..] == rest;
    } else {
      var d: seq<byte> := [48 + n % 10];
      DecimalDigits(n / 10, []);
      assert Digits(n / 10) + [] == Digits(n / 10);
      DecimalAppend(0, Digits(n / 10), d + rest);
      assert Digits(n) + rest == Digits(n / 10) + (d + rest);
      assert (d + rest)[1..] == rest;
    }
  }

  /** Larger numbers are not shorter. */
  lemma {:induction false} DigitsGrow(m: nat, n: nat)
    requires m <= n
    ensures |Digits(m)| <= |Digits(n)|
  {
    if m >= 10 {
      DigitsGrow(m / 10, n / 10);
    }
  }

  function Signed(n: int): seq<byte> {
    if n < 0 then [MINUS] + Digits(-n) else Digits(n)
  }

  /** The number at the front of a text, as atoi finds it. */
  function Atoi(s: seq<byte>): int {
    if s != [] && s[0] == MINUS then 0 - (Decimal(0, s[1..]) as int) else Decimal(0, s)
  }

  lemma AtoiSigned(n: int)
    ensures Atoi(Signed(n)) == n
  {
    if n < 0 {
      DecimalDigits(-n, []);
      assert Signed(n)[1..] == Digits(-n) == Digits(-n) + [];
    } else {
      DecimalDigits(n, []);
      assert Digits(n) + [] == Digits(n);
    }
  }

  // ---------- streams and tokens ----------

  lemma Assoc(x: seq<byte>, y: seq<byte>, z: seq<byte>)
    ensures x + y + z == x + (y + z)
  {}

  predicate Word(s: seq<byte>) {
    s != [] && SPACE !in s && NEWLINE !in s
  }

  /** The stream that was read in these pieces. */
  function Flatten(pieces: seq<seq<byte>>): seq<byte> {
    if pieces == [] then [] else Flatten(pieces[..|pieces| - 1]) + pieces[|pieces| - 1]
  }

  /** The length of the front part of s that has none of the delimiters. */
  function Span(s: seq<byte>, delims: set<byte>): (n: nat)
    ensures n <= |s|
    ensures forall i | 0 <= i < n :: s[i] !in delims
    ensures n < |s| ==> s[n] in delims
  {
    if s == [] || s[0] in delims then 0 else 1 + Span(s[1..], delims)
  }

  function Skip(s: seq<byte>, delims: set<byte>): (r: seq<byte>)
    ensures |r| <= |s|
    ensures r != [] ==> r[0] !in delims
  {
    if s != [] && s[0] in delims then Skip(s[1..], delims) else s
  }

  datatype Token = NoToken | Token(text: seq<byte>, rest: seq<byte>)

  /** One call of strtok: the next token and where the following call goes on. */
  function Strtok(s: seq<byte>, delims: set<byte>): (t: Token)
    ensures t.Token? ==> t.text != [] && |t.rest| < |s|
  {
    var r := Skip(s, delims);
    if r == [] then NoToken
    else
      var n := Span(r, delims);
      Token(r[..n], if n < |r| then r[n + 1..] else [])
  }

  lemma SpanIs(s: seq<byte>, delims: set<byte>, n: nat)
    requires n <= |s| && (forall i | 0 <= i < n :: s[i] !in delims) && (n < |s| ==> s[n] in delims)
    ensures Span(s, delims) == n
  {}

  /** A token, its delimiter, and the rest. */
  lemma StrtokFirst(text: seq<byte>, d: byte, rest: seq<byte>, delims: set<byte>)
    requires text != [] && (forall b | b in text :: b !in delims) && d in delims
    ensures Strtok(text + [d] + rest, delims) == Token(text, rest)
  {
    var s := text + [d] + rest;
    assert s[0] == text[0];
    SpanIs(s, delims, |text|);
    assert s[..|text|] == text && s[|text| + 1..] == rest;
  }

  lemma StrtokLast(text: seq<byte>, delims: set<byte>)
    requires text != [] && forall b | b in text :: b !in delims
    ensures Strtok(text, delims) == Token(text, [])
  {
    SpanIs(text, delims, |text|);
  }

  /** A leading delimiter makes no difference. */
  lemma StrtokSkips(d: byte, s: seq<byte>, delims: set<byte>)
    requires d in delims
    ensures Strtok([d] + s, delims) == Strtok(s, delims)
  {
    assert ([d] + s)[1..] == s;
  }

  predicate Among(s: seq<byte>, delims: set<byte>) { forall i | 0 <= i < |s| :: s[i] in delims }

  lemma {:induction false} Skipped(s: seq<byte>, delims: set<byte>) returns (gap: seq<byte>)
    ensures Among(gap, delims) && s == gap + Skip(s, delims)
  {
    if s != [] && s[0] in delims {
      var more := Skipped(s[1..], delims);
      gap := [s[0]] + more;
    } else {
      gap := [];
    }
  }

  /** A token with something behind it: what is before it, and its delimiter. */
  lemma TokenParts(s: seq<byte>, delims: set<byte>) returns (gap: seq<byte>, d: byte)
    requires Strtok(s, delims).Token? && Strtok(s, delims).rest != []
    ensures var t := Strtok(s, delims);
      && Among(gap, delims) && t.text != [] && (forall b | b in t.text :: b !in delims) && d in delims
      && s == gap + t.text + ([d] + t.rest)
  {
    gap := Skipped(s, delims);
    var r := Skip(s, delims);
    var n := Span(r, delims);
    d := r[n];
    hide Skip, Span, Among;
    assert r[n..] == [d] + r[n + 1..];
    assert r == r[..n] + r[n..];
    Assoc(gap, r[..n], r[n..]);
  }

  /** Leading delimiters make no difference. */
  lemma {:induction false} SkipOver(gap: seq<byte>, delims: set<byte>, s: seq<byte>)
    requires Among(gap, delims)
    ensures Strtok(gap + s, delims) == Strtok(s, delims)
  {
    if gap == [] {
      assert gap + s == s;
    } else {
      assert gap + s == [gap[0]] + (gap[1..] + s);
      StrtokSkips(gap[0], gap[1..] + s, delims);
      SkipOver(gap[1..], delims, s);
    }
  }
}
