/** Sets of protocol features, exchanged between versions that know different numbers of them. */
module Features {
  import opened Text

  /** Characters and bytes of a set are bit vectors here. */
  type octet = bv8

  /** "UNKNOWNFEATURE" */
  const UNKNOWN: seq<octet> := [85, 78, 75, 78, 79, 87, 78, 70, 69, 65, 84, 85, 82, 69]

  /** 1 shifted left. */
  function Mask(bit: nat): octet
    requires bit < 8
  {
    match bit
    case 0 => 0x01 case 1 => 0x02 case 2 => 0x04 case 3 => 0x08
    case 4 => 0x10 case 5 => 0x20 case 6 => 0x40 case _ => 0x80
  }

  lemma MaskIsShift(bit: nat)
    requires bit < 8
    ensures Mask(bit) == (1 as bv8) << bit
  {}

  predicate Bit(b: octet, bit: nat)
    requires bit < 8
  {
    b & Mask(bit) != 0
  }

  predicate HasFeature(bytes: seq<octet>, n: int) {
    n >= 0 && n / 8 < |bytes| && Bit(bytes[n / 8], n % 8)
  }

  lemma SetBit(b: octet, i: nat, j: nat)
    requires i < 8 && j < 8
    ensures Bit(b | Mask(i), j) <==> i == j || Bit(b, j)
  {}

  lemma ClearBit(b: octet, i: nat, j: nat)
    requires i < 8 && j < 8
    ensures Bit(b & !Mask(i), j) <==> i != j && Bit(b, j)
  {}

  lemma NoBits(j: nat)
    requires j < 8
    ensures !Bit(0, j)
  {}

  // ---------- hexadecimal ----------

  function Hex(d: octet): octet
    requires d < 16
  {
    if d < 10 then d + 48 else d + 87
  }

  function Unhex(c: octet): (d: Option<octet>)
    ensures d.Some? ==> d.value < 16
  {
    if 48 <= c <= 57 then Some(c - 48)
    else if 97 <= c <= 102 then Some(c - 87)
    else if 65 <= c <= 70 then Some(c - 55)
    else None
  }

  function Joined(hi: octet, lo: octet): octet {
    (hi << 4) | lo
  }

  lemma HexRoundTrip(b: octet)
    ensures b >> 4 < 16 && b & 15 < 16
    ensures Unhex(Hex(b >> 4)) == Some(b >> 4) && Unhex(Hex(b & 15)) == Some(b & 15)
    ensures Joined(b >> 4, b & 15) == b
  {}

  function PrintByte(b: octet): seq<octet> {
    HexRoundTrip(b);
    [Hex(b >> 4), Hex(b & 15)]
  }

  function Print(bytes: seq<octet>): (s: seq<octet>)
    ensures |s| == 2 * |bytes|
  {
    if bytes == [] then [] else PrintByte(bytes[0]) + Print(bytes[1..])
  }

  predicate IsHex(c: octet) { Unhex(c).Some? }

  function Zeros(k: nat): (z: seq<octet>)
    ensures |z| == k && forall i | 0 <= i < k :: z[i] == 0
  {
    seq(k, _ => 0)
  }

  /** A set of k bytes read from a text that is long enough, too long, or too short; a single digit
      at the end is dropped. */
  function Scan(s: seq<octet>, k: nat): (bytes: Option<seq<octet>>)
    ensures bytes.Some? ==> |bytes.value| == k
    decreases k
  {
    if k == 0 || s == [] then Some(Zeros(k))
    else if !IsHex(s[0]) then None
    else if |s| == 1 then Some(Zeros(k))
    else if !IsHex(s[1]) then None
    else
      match Scan(s[2..], k - 1)
      case None => None
      case Some(rest) => Some([Joined(Unhex(s[0]).value, Unhex(s[1]).value)] + rest)
  }

  function Parse(s: seq<octet>, k: nat): (bytes: Option<seq<octet>>)
    ensures bytes.Some? ==> |bytes.value| == k
  {
    if s == UNKNOWN then None else Scan(s, k)
  }

  function Min(a: nat, b: nat): nat { if a < b then a else b }

  /** What a version that knows k bytes of features makes of a set. */
  function Fitted(bytes: seq<octet>, k: nat): (r: seq<octet>)
    ensures |r| == k
  {
    bytes[..Min(|bytes|, k)] + Zeros(k - Min(|bytes|, k))
  }

  lemma {:induction false} ScanPrinted(bytes: seq<octet>, k: nat)
    ensures Scan(Print(bytes), k) == Some(Fitted(bytes, k))
    decreases k
  {
    if k == 0 {
      assert Fitted(bytes, 0) == [];
    } else if bytes == [] {
      assert Fitted([], k) == Zeros(k);
    } else {
      ScanByte(bytes[0], Print(bytes[1..]), k);
      ScanPrinted(bytes[1..], k - 1);
      FittedFirst(bytes, k);
    }
  }

  lemma ScanByte(b: octet, s: seq<octet>, k: nat)
    requires k > 0
    ensures Scan(PrintByte(b) + s, k) == (match Scan(s, k - 1) case None => None case Some(rest) => Some([b] + rest))
  {
    HexRoundTrip(b);
    assert (PrintByte(b) + s)[2..] == s;
    hide Joined, Hex, Unhex, Zeros;
  }

  lemma FittedFirst(bytes: seq<octet>, k: nat)
    requires k > 0 && bytes != []
    ensures Fitted(bytes, k) == [bytes[0]] + Fitted(bytes[1..], k - 1)
  {}

  lemma PrintedIsKnown(bytes: seq<octet>)
    ensures Print(bytes) != UNKNOWN
  {
    if bytes != [] {
      HexRoundTrip(bytes[0]);
      assert IsHex(Print(bytes)[0]) && !IsHex(UNKNOWN[0]);
    }
  }

  /** A set printed by one version and read by another has exactly the features that the first had
      and the second knows the byte of. */
  lemma Exchange(bytes: seq<octet>, k: nat, n: int)
    ensures Parse(Print(bytes), k).Some?
    ensures HasFeature(Parse(Print(bytes), k).value, n) <==> n < 8 * Min(|bytes|, k) && HasFeature(bytes, n)
  {
    PrintedIsKnown(bytes);
    ScanPrinted(bytes, k);
    hide Scan, Print, HasFeature, Fitted;
    FittedHas(bytes, k, n);
  }

  lemma FittedHas(bytes: seq<octet>, k: nat, n: int)
    ensures HasFeature(Fitted(bytes, k), n) <==> n < 8 * Min(|bytes|, k) && HasFeature(bytes, n)
  {
    hide Bit, Mask;
    if 0 <= n < 8 * k {
      NoBits(n % 8);
    }
  }

  /** The digits 0 to 9 and the letters a to f, small or capital. */
  predicate HexDigit(c: octet) {
    48 <= c <= 57 || 97 <= c <= 102 || 65 <= c <= 70
  }

  /** A text is refused exactly if it is the word for no features, or has a character that is not a
      hexadecimal digit among those that would be used. */
  lemma RefusedExactly(s: seq<octet>, k: nat)
    ensures Parse(s, k) == None <==> s == UNKNOWN || exists i | 0 <= i < |s| && i < 2 * k :: !HexDigit(s[i])
  {
    ScanRefuses(s, k);
  }

  /** What is read from a text that is not refused, byte by byte: two digits each, the higher one first;
      bytes without two digits are 0. */
  lemma {:induction false} ReadExactly(s: seq<octet>, k: nat, i: nat)
    requires Scan(s, k).Some? && i < k
    ensures 2 * i + 1 < |s| ==>
      && Unhex(s[2 * i]).Some? && Unhex(s[2 * i + 1]).Some?
      && Scan(s, k).value[i] == 16 * Unhex(s[2 * i]).value + Unhex(s[2 * i + 1]).value
    ensures 2 * i + 1 >= |s| ==> Scan(s, k).value[i] == 0
    decreases k
  {
    if |s| >= 2 {
      JoinedIs(Unhex(s[0]).value, Unhex(s[1]).value);
      if i > 0 {
        hide Unhex, Joined;
        ReadExactly(s[2..], k - 1, i - 1);
      }
    }
  }

  /** Capital letters are read like small ones. */
  lemma CapitalsToo(c: octet)
    requires 65 <= c <= 70
    ensures Unhex(c) == Unhex(c + 32) && Unhex(c).Some?
  {}

  lemma JoinedIs(hi: octet, lo: octet)
    ensures hi < 16 && lo < 16 ==> Joined(hi, lo) == 16 * hi + lo
  {}

  predicate AllHex(s: seq<octet>, n: nat)
    requires n <= |s|
  {
    forall i | 0 <= i < n :: IsHex(s[i])
  }

  lemma {:induction false} ScanRefuses(s: seq<octet>, k: nat)
    ensures Scan(s, k).Some? <==> AllHex(s, Min(|s|, 2 * k))
    decreases k
  {
    if k > 0 && |s| >= 2 && IsHex(s[0]) && IsHex(s[1]) {
      ScanRefuses(s[2..], k - 1);
      assert AllHex(s, Min(|s|, 2 * k)) <==> AllHex(s[2..], Min(|s| - 2, 2 * (k - 1))) by {
        assert forall i | 2 <= i < Min(|s|, 2 * k) :: s[i] == s[2..][i - 2];
        assert forall i | 0 <= i < Min(|s| - 2, 2 * (k - 1)) :: s[2..][i] == s[i + 2];
      }
    }
  }

  // ---------- the set ----------

  class FeatureSet {
    var bytes: array<octet>

    constructor (size: nat)
      ensures fresh(bytes) && bytes[..] == Zeros(size)
    {
      bytes := new octet[size](_ => 0);
      new;
      assert bytes[..] == Zeros(size);
    }

    /** Adds one feature and changes no other; features beyond the set are not added. */
    method Add(n: int) returns (added: bool)
      modifies bytes
      ensures added <==> 0 <= n < 8 * bytes.Length
      ensures forall m: int :: HasFeature(bytes[..], m) <==> (added && m == n) || HasFeature(old(bytes[..]), m)
    {
      added := false;
      if n >= 0 && n / 8 < bytes.Length {
        var before := bytes[n / 8];
        bytes[n / 8] := before | Mask(n % 8);
        added := true;
        ByteSet(old(bytes[..]), n, bytes[..]);
      }
    }

    method Remove(n: int) returns (removed: bool)
      modifies bytes
      ensures removed <==> 0 <= n < 8 * bytes.Length
      ensures forall m: int :: HasFeature(bytes[..], m) <==> m != n && HasFeature(old(bytes[..]), m)
    {
      removed := false;
      if n >= 0 && n / 8 < bytes.Length {
        var before := bytes[n / 8];
        bytes[n / 8] := before & !Mask(n % 8);
        removed := true;
        ByteCleared(old(bytes[..]), n, bytes[..]);
      }
    }

    method Has(n: int) returns (has: bool)
      ensures has <==> HasFeature(bytes[..], n)
    {
      has := false;
      if n >= 0 && n / 8 < bytes.Length {
        has := Bit(bytes[n / 8], n % 8);
      }
    }

    method ToString() returns (s: seq<octet>)
      ensures s == Print(bytes[..])
    {
      s := [];
      assert bytes[0..] == bytes[..] && [] + Print(bytes[..]) == Print(bytes[..]);
      for i := 0 to bytes.Length
        invariant s + Print(bytes[i..]) == Print(bytes[..])
      {
        assert bytes[i..][0] == bytes[i] && bytes[i..][1..] == bytes[i + 1..];
        PrintNext(s, bytes[i..]);
        s := s + PrintByte(bytes[i]);
      }
      assert bytes[bytes.Length..] == [] && s + [] == s;
    }

    /** Reads a text into this set, which is empty; false if the text is refused. */
    method ReadString(s: seq<octet>) returns (ok: bool)
      requires bytes[..] == Zeros(bytes.Length)
      modifies bytes
      ensures ok <==> Parse(s, bytes.Length).Some?
      ensures ok ==> bytes[..] == Parse(s, bytes.Length).value
    {
      if s == UNKNOWN { return false; }
      var i, k := 0, bytes.Length;
      PrependNone(Scan(s, k));
      assert bytes[..0] == [] && s[0..] == s;
      while i < k && 2 * i < |s|
        invariant i <= k && 2 * i <= |s|
        invariant forall j | i <= j < k :: bytes[j] == 0
        invariant Scan(s, k) == Prepend(bytes[..i], Scan(s[2 * i..], k - i))
        decreases k - i
      {
        assert s[2 * i..][0] == s[2 * i];
        if !IsHex(s[2 * i]) { return false; }
        if 2 * i + 1 == |s| { break; }
        assert s[2 * i..][1] == s[2 * i + 1] && s[2 * i..][2..] == s[2 * (i + 1)..];
        if !IsHex(s[2 * i + 1]) { return false; }
        var b := Joined(Unhex(s[2 * i]).value, Unhex(s[2 * i + 1]).value);
        PrependOne(bytes[..i], b, Scan(s[2 * (i + 1)..], k - (i + 1)));
        bytes[i] := b;
        assert bytes[..i + 1] == bytes[..i] + [b];
        i := i + 1;
      }
      assert bytes[..] == bytes[..i] + Zeros(k - i);
      ok := true;
    }
  }

  function Prepend(front: seq<octet>, rest: Option<seq<octet>>): Option<seq<octet>> {
    match rest case None => None case Some(r) => Some(front + r)
  }

  lemma PrependNone(rest: Option<seq<octet>>)
    ensures Prepend([], rest) == rest
  {
    if rest.Some? {
      assert [] + rest.value == rest.value;
    }
  }

  lemma PrependOne(front: seq<octet>, b: octet, rest: Option<seq<octet>>)
    ensures Prepend(front, Prepend([b], rest)) == Prepend(front + [b], rest)
  {
    if rest.Some? {
      assert front + ([b] + rest.value) == front + [b] + rest.value;
    }
  }

  lemma PrintNext(s: seq<octet>, bytes: seq<octet>)
    requires bytes != []
    ensures s + Print(bytes) == s + PrintByte(bytes[0]) + Print(bytes[1..])
  {}

  lemma ByteSet(bytes: seq<octet>, n: nat, bytes': seq<octet>)
    requires n / 8 < |bytes| && bytes' == bytes[n / 8 := bytes[n / 8] | Mask(n % 8)]
    ensures forall m: int :: HasFeature(bytes', m) <==> m == n || HasFeature(bytes, m)
  {
    forall m: int ensures HasFeature(bytes', m) <==> m == n || HasFeature(bytes, m) {
      SetBit(bytes[n / 8], n % 8, m % 8);
      hide Mask, Bit;
    }
  }

  lemma ByteCleared(bytes: seq<octet>, n: nat, bytes': seq<octet>)
    requires n / 8 < |bytes| && bytes' == bytes[n / 8 := bytes[n / 8] & !Mask(n % 8)]
    ensures forall m: int :: HasFeature(bytes', m) <==> m != n && HasFeature(bytes, m)
  {
    forall m: int ensures HasFeature(bytes', m) <==> m != n && HasFeature(bytes, m) {
      ClearBit(bytes[n / 8], n % 8, m % 8);
      hide Mask, Bit;
    }
  }
}
