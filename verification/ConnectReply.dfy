/** The REP packet made from a service's reply: the stream handles of a CONNECT line are replaced
    by the numbers of streams opened for them. */
module ConnectReply {
  import opened Text

  const DATA_FD_OFFSET := 50
  const DATA_FD_COUNT := 3

  /** "CONNECT" */
  const CONNECT: seq<byte> := [67, 79, 78, 78, 69, 67, 84]
  /** "KENCRYPT" and a newline. */
  const KENCRYPT: seq<byte> := [75, 69, 78, 67, 82, 89, 80, 84, 10]

  /** Which of the service's streams have a network stream, and the number of the stream that the
      security layer gives to each, if it can. */
  type Nets = n: seq<bool> | |n| == DATA_FD_COUNT witness [false, false, false]
  type Ids = n: seq<Option<nat>> | |n| == DATA_FD_COUNT witness [None, None, None]

  const NO_NETS: Nets := [false, false, false]

  predicate Valid(handle: int) {
    DATA_FD_OFFSET <= handle < DATA_FD_OFFSET + DATA_FD_COUNT
  }

  /** The number for the server, or -1. */
  function StreamId(nets: Nets, ids: Ids, handle: int): int {
    if !Valid(handle) || nets[handle - DATA_FD_OFFSET] || ids[handle - DATA_FD_OFFSET].None? then -1
    else ids[handle - DATA_FD_OFFSET].value
  }

  function Allocated(nets: Nets, ids: Ids, handle: int): Nets {
    if StreamId(nets, ids, handle) < 0 then nets else nets[handle - DATA_FD_OFFSET := true]
  }

  datatype Connected = Connected(text: seq<byte>, nets: Nets, ok: bool)

  /** The pairs of a tag and a handle that are left on the line. */
  function Pairs(line: seq<byte>, nets: Nets, ids: Ids): Connected
    decreases |line|
  {
    match Strtok(line, {SPACE})
    case NoToken => Connected([], nets, true)
    case Token(tag, afterTag) =>
      match Strtok(afterTag, {SPACE, NEWLINE})
      case NoToken => Connected([SPACE] + tag, nets, false)
      case Token(handle, rest) =>
        var later := Pairs(rest, Allocated(nets, ids, Atoi(handle)), ids);
        Connected([SPACE] + tag + [SPACE] + Signed(StreamId(nets, ids, Atoi(handle))) + later.text, later.nets, later.ok)
  }

  datatype Packet = Packet(body: seq<byte>, nets: Nets)

  /** The reply without the request for encryption at its front. */
  function Plain(reply: seq<byte>): seq<byte> {
    if KENCRYPT <= reply then reply[|KENCRYPT|..] else reply
  }

  /** The reply as it is sent.  A line that breaks off is followed by the whole reply again. */
  function RepPacket(reply: seq<byte>, ids: Ids): Packet {
    var first := Strtok(Plain(reply), {SPACE});
    if first == NoToken || first.text != CONNECT then Packet(reply, NO_NETS)
    else
      var line := Strtok(first.rest, {NEWLINE});
      if line == NoToken || line.rest == [] then Packet(reply, NO_NETS)
      else
        var c := Pairs(line.text, NO_NETS, ids);
        Packet(CONNECT + c.text + if c.ok then [NEWLINE] + line.rest else reply, c.nets)
  }

  // ---------- what a CONNECT line becomes ----------

  datatype Pair = Pair(tag: seq<byte>, handle: int)

  function Line(pairs: seq<Pair>): seq<byte> {
    if pairs == [] then [] else [SPACE] + pairs[0].tag + [SPACE] + Signed(pairs[0].handle) + Line(pairs[1..])
  }

  /** The handles replaced in order: each stream is given out once, to the first who names it. */
  function Assigned(pairs: seq<Pair>, nets: Nets, ids: Ids): seq<Pair> {
    if pairs == [] then []
    else
      [Pair(pairs[0].tag, StreamId(nets, ids, pairs[0].handle))]
      + Assigned(pairs[1..], Allocated(nets, ids, pairs[0].handle), ids)
  }

  function NetsAfter(pairs: seq<Pair>, nets: Nets, ids: Ids): Nets {
    if pairs == [] then nets else NetsAfter(pairs[1..], Allocated(nets, ids, pairs[0].handle), ids)
  }

  lemma {:induction false} SignedWord(n: int)
    ensures Word(Signed(n))
  {}

  /** One pair at the front of a line. */
  lemma PairFirst(p: Pair, rest: seq<byte>, nets: Nets, ids: Ids)
    requires Word(p.tag) && (rest == [] || rest[0] == SPACE)
    ensures var later := Pairs(rest, Allocated(nets, ids, p.handle), ids);
      Pairs([SPACE] + p.tag + [SPACE] + Signed(p.handle) + rest, nets, ids) ==
      Connected([SPACE] + p.tag + [SPACE] + Signed(StreamId(nets, ids, p.handle)) + later.text, later.nets, later.ok)
  {
    hide Strtok, Signed, StreamId, Allocated;
    TagFirst(p.tag, Signed(p.handle) + rest);
    HandleFirst(p.handle, rest, Allocated(nets, ids, p.handle), ids);
    assert [SPACE] + p.tag + [SPACE] + Signed(p.handle) + rest == [SPACE] + p.tag + [SPACE] + (Signed(p.handle) + rest);
  }

  lemma TagFirst(tag: seq<byte>, afterTag: seq<byte>)
    requires Word(tag)
    ensures Strtok([SPACE] + tag + [SPACE] + afterTag, {SPACE}) == Token(tag, afterTag)
  {
    assert [SPACE] + tag + [SPACE] + afterTag == [SPACE] + (tag + [SPACE] + afterTag);
    StrtokSkips(SPACE, tag + [SPACE] + afterTag, {SPACE});
    StrtokFirst(tag, SPACE, afterTag, {SPACE});
  }

  /** The handle's token, after which the line goes on as before. */
  lemma HandleFirst(handle: int, rest: seq<byte>, nets: Nets, ids: Ids)
    requires rest == [] || rest[0] == SPACE
    ensures var t := Strtok(Signed(handle) + rest, {SPACE, NEWLINE});
      t.Token? && Atoi(t.text) == handle && Pairs(t.rest, nets, ids) == Pairs(rest, nets, ids)
  {
    SignedWord(handle);
    AtoiSigned(handle);
    var word := Signed(handle);
    hide Strtok, Atoi, Signed;
    if rest == [] {
      assert word + rest == word;
      StrtokLast(word, {SPACE, NEWLINE});
    } else {
      assert rest == [SPACE] + rest[1..];
      assert word + rest == word + [SPACE] + rest[1..];
      StrtokFirst(word, SPACE, rest[1..], {SPACE, NEWLINE});
      SpaceFirst(rest[1..], nets, ids);
    }
  }

  lemma SpaceFirst(s: seq<byte>, nets: Nets, ids: Ids)
    ensures Pairs([SPACE] + s, nets, ids) == Pairs(s, nets, ids)
  {
    StrtokSkips(SPACE, s, {SPACE});
  }

  lemma {:induction false} PairsAssigned(pairs: seq<Pair>, nets: Nets, ids: Ids)
    requires forall i | 0 <= i < |pairs| :: Word(pairs[i].tag)
    ensures Pairs(Line(pairs), nets, ids) == Connected(Line(Assigned(pairs, nets, ids)), NetsAfter(pairs, nets, ids), true)
  {
    if pairs == [] {
      assert Strtok([], {SPACE}) == NoToken;
    } else {
      var nets1 := Allocated(nets, ids, pairs[0].handle);
      var first := Pair(pairs[0].tag, StreamId(nets, ids, pairs[0].handle));
      PairsAssigned(pairs[1..], nets1, ids);
      PairFirst(pairs[0], Line(pairs[1..]), nets, ids);
      assert Assigned(pairs, nets, ids)[1..] == Assigned(pairs[1..], nets1, ids);
    }
  }

  lemma LineWords(pairs: seq<Pair>)
    requires forall i | 0 <= i < |pairs| :: Word(pairs[i].tag)
    ensures NEWLINE !in Line(pairs)
  {
    if pairs != [] {
      LineWords(pairs[1..]);
      SignedWord(pairs[0].handle);
    }
  }

  /** For every list of tags and handles, a reply that begins with its CONNECT line is sent with
      the handles replaced and all that follows the line unchanged. */
  lemma ConnectTranslated(pairs: seq<Pair>, after: seq<byte>, ids: Ids)
    requires pairs != [] && (forall i | 0 <= i < |pairs| :: Word(pairs[i].tag)) && after != []
    ensures RepPacket(CONNECT + Line(pairs) + [NEWLINE] + after, ids) ==
      Packet(CONNECT + Line(Assigned(pairs, NO_NETS, ids)) + [NEWLINE] + after, NetsAfter(pairs, NO_NETS, ids))
  {
    hide Strtok, Pairs, Assigned, NetsAfter;
    var line := Line(pairs);
    assert line[0] == SPACE && line == [SPACE] + line[1..] && line[1..] != [];
    LineWords(pairs);
    ConnectLine(line, after);
    SpaceFirst(line[1..], NO_NETS, ids);
    PairsAssigned(pairs, NO_NETS, ids);
    var done := Line(Assigned(pairs, NO_NETS, ids));
    assert CONNECT + done + ([NEWLINE] + after) == CONNECT + done + [NEWLINE] + after;
  }

  lemma ConnectLine(line: seq<byte>, after: seq<byte>)
    requires line != [] && line[0] == SPACE && line[1..] != [] && NEWLINE !in line
    ensures var reply := CONNECT + line + [NEWLINE] + after;
      && !(KENCRYPT <= reply)
      && Strtok(reply, {SPACE}) == Token(CONNECT, line[1..] + [NEWLINE] + after)
      && Strtok(line[1..] + [NEWLINE] + after, {NEWLINE}) == Token(line[1..], after)
  {
    hide Strtok;
    var reply := CONNECT + line + [NEWLINE] + after;
    assert reply == CONNECT + [SPACE] + (line[1..] + [NEWLINE] + after);
    assert reply[0] == CONNECT[0] && KENCRYPT[0] != CONNECT[0];
    StrtokFirst(CONNECT, SPACE, line[1..] + [NEWLINE] + after, {SPACE});
    StrtokFirst(line[1..], NEWLINE, after, {NEWLINE});
  }

  /** The number that each handle is replaced by: that of its stream, if there is one, if the security
      layer has one to give, and if no earlier pair has named it; -1 otherwise. */
  lemma {:induction false} AssignedFrom(pairs: seq<Pair>, nets: Nets, ids: Ids, k: nat)
    requires k < |pairs|
    ensures |Assigned(pairs, nets, ids)| == |pairs| && Assigned(pairs, nets, ids)[k].tag == pairs[k].tag
    ensures var h := pairs[k].handle;
      Assigned(pairs, nets, ids)[k].handle ==
        if 50 <= h < 53 && !nets[h - 50] && ids[h - 50].Some? && (forall j | 0 <= j < k :: pairs[j].handle != h)
        then ids[h - 50].value else -1
  {
    AssignedLength(pairs, nets, ids);
    if k > 0 {
      AssignedFrom(pairs[1..], Allocated(nets, ids, pairs[0].handle), ids, k - 1);
      forall j | 0 <= j < k ensures pairs[j].handle == if j == 0 then pairs[0].handle else pairs[1..][j - 1].handle {}
      assert (forall j | 0 <= j < k :: pairs[j].handle != pairs[k].handle) <==>
        pairs[0].handle != pairs[k].handle && forall j | 0 <= j < k - 1 :: pairs[1..][j].handle != pairs[k].handle by {
        OthersDiffer(pairs, k);
      }
    }
  }

  lemma OthersDiffer(pairs: seq<Pair>, k: nat)
    requires 0 < k < |pairs|
    ensures (forall j | 0 <= j < k :: pairs[j].handle != pairs[k].handle) <==>
      pairs[0].handle != pairs[k].handle && forall j | 0 <= j < k - 1 :: pairs[1..][j].handle != pairs[k].handle
  {
    if pairs[0].handle != pairs[k].handle && forall j | 0 <= j < k - 1 :: pairs[1..][j].handle != pairs[k].handle {
      forall j | 0 <= j < k ensures pairs[j].handle != pairs[k].handle {
        if j > 0 { assert pairs[j] == pairs[1..][j - 1]; }
      }
    }
    if forall j | 0 <= j < k :: pairs[j].handle != pairs[k].handle {
      forall j | 0 <= j < k - 1 ensures pairs[1..][j].handle != pairs[k].handle {
        assert pairs[1..][j] == pairs[j + 1];
      }
    }
  }

  lemma {:induction false} AssignedLength(pairs: seq<Pair>, nets: Nets, ids: Ids)
    ensures |Assigned(pairs, nets, ids)| == |pairs|
  {
    if pairs != [] {
      AssignedLength(pairs[1..], Allocated(nets, ids, pairs[0].handle), ids);
    }
  }

  lemma {:induction false} NetsFrom(pairs: seq<Pair>, nets: Nets, ids: Ids, fd: nat)
    requires fd < 3
    ensures NetsAfter(pairs, nets, ids)[fd] <==> nets[fd] || (ids[fd].Some? && exists k | 0 <= k < |pairs| :: pairs[k].handle == 50 + fd)
  {
    if pairs != [] {
      NetsFrom(pairs[1..], Allocated(nets, ids, pairs[0].handle), ids, fd);
      if k :| 0 <= k < |pairs[1..]| && pairs[1..][k].handle == 50 + fd {
        assert pairs[k + 1].handle == 50 + fd;
      }
    }
  }

  /** On a CONNECT line each stream is given out once, to the first pair that names it, if the security
      layer has one to give; all other handles become -1; the streams that are set up are those named. */
  lemma AssignedExactly(pairs: seq<Pair>, ids: Ids)
    ensures |Assigned(pairs, NO_NETS, ids)| == |pairs|
    ensures forall k | 0 <= k < |pairs| ::
      var h := pairs[k].handle;
      Assigned(pairs, NO_NETS, ids)[k] == Pair(pairs[k].tag,
        if 50 <= h < 53 && ids[h - 50].Some? && (forall j | 0 <= j < k :: pairs[j].handle != h) then ids[h - 50].value else -1)
    ensures forall fd: nat | fd < 3 ::
      NetsAfter(pairs, NO_NETS, ids)[fd] <==> ids[fd].Some? && exists k | 0 <= k < |pairs| :: pairs[k].handle == 50 + fd
  {
    AssignedLength(pairs, NO_NETS, ids);
    forall k: nat | k < |pairs|
      ensures var h := pairs[k].handle;
        Assigned(pairs, NO_NETS, ids)[k] == Pair(pairs[k].tag,
          if 50 <= h < 53 && ids[h - 50].Some? && (forall j | 0 <= j < k :: pairs[j].handle != h) then ids[h - 50].value else -1)
    {
      AssignedFrom(pairs, NO_NETS, ids, k);
    }
    forall fd: nat | fd < 3
      ensures NetsAfter(pairs, NO_NETS, ids)[fd] <==> ids[fd].Some? && exists k | 0 <= k < |pairs| :: pairs[k].handle == 50 + fd
    {
      NetsFrom(pairs, NO_NETS, ids, fd);
    }
  }

  /** A stream is never given out twice. */
  lemma GivenOnce(pairs: seq<Pair>, nets: Nets, ids: Ids, i: nat, k: nat)
    requires i < k < |pairs| && pairs[i].handle == pairs[k].handle
    ensures |Assigned(pairs, nets, ids)| == |pairs| && Assigned(pairs, nets, ids)[k].handle == -1
  {
    AssignedFrom(pairs, nets, ids, k);
  }

  // ---------- lines that break off ----------

  lemma LoneTag(tag: seq<byte>, nets: Nets, ids: Ids)
    requires Word(tag)
    ensures Pairs([SPACE] + tag, nets, ids) == Connected([SPACE] + tag, nets, false)
  {
    StrtokSkips(SPACE, tag, {SPACE});
    StrtokLast(tag, {SPACE});
    assert Strtok([], {SPACE, NEWLINE}) == NoToken;
  }

  lemma LineFirst(pairs: seq<Pair>, last: seq<byte>)
    requires pairs != []
    ensures Line(pairs) + last == [SPACE] + pairs[0].tag + [SPACE] + Signed(pairs[0].handle) + (Line(pairs[1..]) + last)
  {
    hide Signed;
    Assoc([SPACE] + pairs[0].tag + [SPACE] + Signed(pairs[0].handle), Line(pairs[1..]), last);
  }

  lemma {:induction false} PairsBroken(pairs: seq<Pair>, tag: seq<byte>, nets: Nets, ids: Ids)
    requires (forall i | 0 <= i < |pairs| :: Word(pairs[i].tag)) && Word(tag)
    ensures Pairs(Line(pairs) + ([SPACE] + tag), nets, ids) ==
      Connected(Line(Assigned(pairs, nets, ids)) + ([SPACE] + tag), NetsAfter(pairs, nets, ids), false)
  {
    var last := [SPACE] + tag;
    if pairs == [] {
      LoneTag(tag, nets, ids);
      hide Pairs;
      assert Line(pairs) + last == last && Line(Assigned(pairs, nets, ids)) + last == last;
    } else {
      var nets1 := Allocated(nets, ids, pairs[0].handle);
      PairsBroken(pairs[1..], tag, nets1, ids);
      assert Assigned(pairs, nets, ids)[1..] == Assigned(pairs[1..], nets1, ids);
      hide Strtok, Signed, StreamId, Allocated, Pairs, Line, Word;
      assert Line(pairs[1..]) + last == [] || (Line(pairs[1..]) + last)[0] == SPACE by { LineStarts(pairs[1..]); }
      PairFirst(pairs[0], Line(pairs[1..]) + last, nets, ids);
      LineFirst(pairs, last);
      LineFirst(Assigned(pairs, nets, ids), last);
    }
  }

  lemma LineStarts(pairs: seq<Pair>)
    ensures Line(pairs) == [] || Line(pairs)[0] == SPACE
  {}

  /** A CONNECT line that ends with a tag without a handle is sent as far as it goes, followed by the
      whole reply as it was; the streams named before are set up. */
  lemma ConnectBroken(pairs: seq<Pair>, tag: seq<byte>, after: seq<byte>, ids: Ids)
    requires (forall i | 0 <= i < |pairs| :: Word(pairs[i].tag)) && Word(tag) && after != []
    ensures var reply := CONNECT + (Line(pairs) + ([SPACE] + tag)) + [NEWLINE] + after;
      RepPacket(reply, ids) == Packet(CONNECT + (Line(Assigned(pairs, NO_NETS, ids)) + ([SPACE] + tag)) + reply, NetsAfter(pairs, NO_NETS, ids))
  {
    hide Strtok, Pairs, Assigned, NetsAfter;
    var line := Line(pairs) + ([SPACE] + tag);
    if pairs == [] {
      assert line == [SPACE] + tag;
    } else {
      assert line[0] == Line(pairs)[0] == SPACE && |line| > 1;
    }
    assert line == [SPACE] + line[1..] && line[1..] != [];
    LineWords(pairs);
    ConnectLine(line, after);
    SpaceFirst(line[1..], NO_NETS, ids);
    PairsBroken(pairs, tag, NO_NETS, ids);
  }

  // ---------- replies without a CONNECT line ----------

  /** The reply begins with a line for streams, which is not empty and is followed by something; before it
      there may be the request for encryption. */
  predicate Connects(reply: seq<byte>, gap: seq<byte>, lines: seq<byte>, line: seq<byte>, after: seq<byte>) {
    var text := gap + CONNECT + [SPACE] + (lines + line + [NEWLINE] + after);
    && (reply == text || reply == KENCRYPT + text)
    && Among(gap, {SPACE}) && Among(lines, {NEWLINE}) && line != [] && NEWLINE !in line && after != []
  }

  lemma PlainIs(reply: seq<byte>)
    ensures reply == Plain(reply) || reply == KENCRYPT + Plain(reply)
  {}

  /** What does not begin like the request for encryption is left as it is behind one. */
  lemma PlainOf(text: seq<byte>)
    requires text != [] && text[0] != KENCRYPT[0]
    ensures Plain(text) == text && Plain(KENCRYPT + text) == text
  {
    assert (KENCRYPT + text)[|KENCRYPT|..] == text;
  }

  ghost predicate HasConnectLine(reply: seq<byte>) {
    exists gap, lines, line, after :: Connects(reply, gap, lines, line, after)
  }

  /** What is taken for a CONNECT line is one. */
  lemma ConnectFound(reply: seq<byte>, first: Token, line: Token)
    requires first == Strtok(Plain(reply), {SPACE}) && first.Token? && first.text == CONNECT
    requires line == Strtok(first.rest, {NEWLINE}) && line.Token? && line.rest != []
    ensures HasConnectLine(reply)
  {
    var text := Plain(reply);
    var gap, space := TokenParts(text, {SPACE});
    var lines, newline := TokenParts(first.rest, {NEWLINE});
    hide Strtok;
    assert first.rest == lines + line.text + ([NEWLINE] + line.rest);
    Assoc(lines + line.text, [NEWLINE], line.rest);
    assert text == gap + CONNECT + ([SPACE] + first.rest);
    Assoc(gap + CONNECT, [SPACE], first.rest);
    PlainIs(reply);
    hide Plain;
    assert Connects(reply, gap, lines, line.text, line.rest);
  }

  /** Without such a line a reply is sent as it is, and no stream is set up. */
  lemma OtherReplies(reply: seq<byte>, ids: Ids)
    requires !HasConnectLine(reply)
    ensures RepPacket(reply, ids) == Packet(reply, NO_NETS)
  {
    hide Strtok, Plain, HasConnectLine;
    var first := Strtok(Plain(reply), {SPACE});
    if first.Token? && first.text == CONNECT && Strtok(first.rest, {NEWLINE}).Token? && Strtok(first.rest, {NEWLINE}).rest != [] {
      ConnectFound(reply, first, Strtok(first.rest, {NEWLINE}));
    }
  }

  lemma ConnectTokens(gap: seq<byte>, lines: seq<byte>, line: seq<byte>, after: seq<byte>)
    requires Among(gap, {SPACE}) && Among(lines, {NEWLINE}) && line != [] && NEWLINE !in line
    ensures var rest := lines + line + [NEWLINE] + after;
      && Strtok(gap + CONNECT + [SPACE] + rest, {SPACE}) == Token(CONNECT, rest)
      && Strtok(rest, {NEWLINE}) == Token(line, after)
  {
    hide Strtok;
    var rest := lines + line + [NEWLINE] + after;
    assert gap + CONNECT + [SPACE] + rest == gap + (CONNECT + [SPACE] + rest);
    SkipOver(gap, {SPACE}, CONNECT + [SPACE] + rest);
    StrtokFirst(CONNECT, SPACE, rest, {SPACE});
    assert rest == lines + (line + [NEWLINE] + after);
    SkipOver(lines, {NEWLINE}, line + [NEWLINE] + after);
    StrtokFirst(line, NEWLINE, after, {NEWLINE});
  }

  lemma ConnectStarts(gap: seq<byte>, rest: seq<byte>)
    requires Among(gap, {SPACE})
    ensures var text := gap + CONNECT + [SPACE] + rest; Plain(text) == text && Plain(KENCRYPT + text) == text
  {
    var text := gap + CONNECT + [SPACE] + rest;
    assert text[0] == if gap == [] then CONNECT[0] else gap[0];
    PlainOf(text);
  }

  /** With one, the packet begins with what becomes of the line, and goes on with what follows it. */
  lemma ConnectReplies(reply: seq<byte>, gap: seq<byte>, lines: seq<byte>, line: seq<byte>, after: seq<byte>, ids: Ids)
    requires Connects(reply, gap, lines, line, after)
    ensures var c := Pairs(line, NO_NETS, ids);
      RepPacket(reply, ids) == Packet(CONNECT + c.text + if c.ok then [NEWLINE] + after else reply, c.nets)
  {
    ConnectStarts(gap, lines + line + [NEWLINE] + after);
    ConnectTokens(gap, lines, line, after);
    hide Strtok, Pairs, Plain, Among, CONNECT;
  }
}
