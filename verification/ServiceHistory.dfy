/** What a service says, told from its inputs alone: the reply it collects, and everything it sends. */
module ServiceHistory {
  import opened Text
  import opened ErrorLines
  import opened InfoEndScan
  import opened ConnectReply
  import opened ServiceProtocol

  function Earlier(run: seq<Input>): seq<Input>
    requires run != []
  {
    run[..|run| - 1]
  }

  function Latest(run: seq<Input>): Input
    requires run != []
  {
    run[|run| - 1]
  }

  // ---------- the reply ----------

  /** Its standard error has not been read to the end. */
  predicate StderrOpen(run: seq<Input>) {
    forall k | 0 <= k < |run| :: run[k] != ErrorData([]) && !(run[k].ReplyEnd? && run[k].error == Some([]))
  }

  /** What was read from its standard error: each read up to the first NUL. */
  function Stderr(run: seq<Input>): seq<byte> {
    if run == [] then []
    else Stderr(Earlier(run)) + StderrOf(StderrOpen(Earlier(run)), Latest(run))
  }

  function StderrOf(open: bool, i: Input): seq<byte> {
    match i
    case ErrorData(data) => CString(data)
    case ReplyEnd(error, _, _) => if open && error.Some? then CString(error.value) else []
    case _ => []
  }

  /** The lines of a text that are finished by more text. */
  function LinesDone(text: seq<byte>, more: seq<byte>): seq<seq<byte>> {
    SplitLines(SplitLines(text).rest + more).lines
  }

  /** What an input adds to the reply: the data from the reply pipe, a prefixed line for each line that is
      finished on standard error, and the message that the process failed. */
  function Adds(prefix: seq<byte>, run: seq<Input>, i: Input): seq<byte> {
    (if i.ReplyData? then i.data else [])
    + Messages(prefix, LinesDone(Stderr(run), StderrOf(StderrOpen(run), i)))
    + (if i.ReplyEnd? then i.failure else [])
  }

  /** The reply that is collected, in the order in which it comes. */
  function ReplyText(prefix: seq<byte>, run: seq<Input>): seq<byte> {
    if run == [] then [] else ReplyText(prefix, Earlier(run)) + Adds(prefix, Earlier(run), Latest(run))
  }

  // ---------- the room for it ----------

  predicate ReadsReply(i: Input) { i.ReplyData? || i.ReplyEnd? || i.ReplyBroken? }

  /** The most bytes that room was made for: a block behind the reply before it is read on, and a
      terminator behind all that was collected. */
  function Need(prefix: seq<byte>, run: seq<Input>): nat {
    if run == [] then 0
    else
      var all, before := ReplyText(prefix, run), ReplyText(prefix, Earlier(run));
      Larger(Larger(Need(prefix, Earlier(run)), if ReadsReply(Latest(run)) then |before| + 32 * 1024 + 1 else 0),
             if all == [] then 0 else |all| + 1)
  }

  function Larger(a: nat, b: nat): nat { if a < b then b else a }

  /** The buffer is the smallest doubling of a block that is enough. */
  function Length(need: nat): nat {
    if need == 0 then 0 else Double(NETWORK_BLOCK_BYTES, need)
  }

  predicate HasRoom(prefix: seq<byte>, run: seq<Input>) {
    Length(Need(prefix, run)) >= |ReplyText(prefix, run)| + 32 * 1024 + 1
  }

  // ---------- the REP ----------

  /** When the end of the reply was read. */
  function EndAt(run: seq<Input>): (n: nat)
    ensures n <= |run|
    ensures n < |run| ==> run[n].ReplyEnd?
    ensures forall k | 0 <= k < n :: !run[k].ReplyEnd?
  {
    if run == [] || run[0].ReplyEnd? then 0 else 1 + EndAt(run[1..])
  }

  predicate Replied(run: seq<Input>) { EndAt(run) < |run| }

  /** The inputs up to the end of the reply. */
  function UpToEnd(run: seq<Input>): seq<Input> {
    if Replied(run) then run[..EndAt(run) + 1] else run
  }

  /** The REP is made from what was collected by then. */
  function RepOf(prefix: seq<byte>, run: seq<Input>): Packet {
    if Replied(run) then RepPacket(CString(ReplyText(prefix, UpToEnd(run))), run[EndAt(run)].ids) else Packet([], NO_NETS)
  }

  function LateTimeouts(run: seq<Input>): nat {
    if run == [] then 0 else LateTimeouts(Earlier(run)) + if Latest(run) == AckTimeout then 1 else 0
  }

  /** A stream of the REP that could not be accepted after it, or has ended. */
  predicate Lost(run: seq<Input>, fd: Fd) {
    exists k | EndAt(run) < k < |run| :: LosesStream(run[k], fd)
  }

  predicate LosesStream(i: Input, fd: Fd) {
    (i.Received? && i.kind == Ack && !i.accepts[fd]) || i == StreamEnd(fd)
  }

  predicate OpenNow(prefix: seq<byte>, run: seq<Input>, fd: Fd) {
    RepOf(prefix, run).nets[fd] && !Lost(run, fd)
  }

  // ---------- everything that is sent ----------

  function AcceptOf(nets: Nets, accepts: Nets, fd: Fd): seq<Entry> {
    if nets[fd] then [Out(Accept(fd, accepts[fd]))] else []
  }

  /** What an input makes the service send, by what was put in before. */
  function Sends(cfg: Config, run: seq<Input>, i: Input): seq<Entry> {
    var rep := RepOf(cfg.prefix, run);
    match i
    case ReplyData(_) =>
      if cfg.partialReplies && HasRoom(cfg.prefix, run) then [Out(SendPrep(CString(ReplyText(cfg.prefix, run + [i]))))] else []
    case ReplyEnd(_, _, _) => [Out(SendRep(RepOf(cfg.prefix, run + [i]).body))]
    case ReplyBroken => [Out(SendNak)]
    case ReplyTimeout => [Out(SendNak)]
    case ErrorData(_) => []
    case Received(kind, accepts) =>
      if kind == Req then [Out(if Replied(run) then SendRep(rep.body) else SendAck)]
      else if kind == Ack && Replied(run) then
        AcceptOf(rep.nets, accepts, DATA_FD) + AcceptOf(rep.nets, accepts, MESG_FD) + AcceptOf(rep.nets, accepts, INDEX_FD)
      else [Out(SendNak)]
    case AckTimeout => if LateTimeouts(run) + 1 < cfg.repTries then [Out(SendRep(rep.body))] else []
    case StreamData(fd, data, written) => [Out(if written then Forward(fd, data) else SendNak)]
    case StreamEnd(_) => []
    case StreamBroken(_) => [Out(SendNak)]
  }

  /** All inputs and outputs in order. */
  function History(cfg: Config, run: seq<Input>): seq<Entry> {
    if run == [] then [Out(SendAck)]
    else History(cfg, Earlier(run)) + [In(Latest(run))] + Sends(cfg, Earlier(run), Latest(run))
  }

  /** An input with which the service is given up. */
  predicate GivesUp(cfg: Config, run: seq<Input>, i: Input) {
    match i
    case ReplyBroken => true
    case ReplyTimeout => true
    case StreamBroken(_) => true
    case AckTimeout => LateTimeouts(run) + 1 >= cfg.repTries
    case Received(kind, accepts) =>
      kind == Ack && Replied(run) && forall fd: Fd :: !(RepOf(cfg.prefix, run).nets[fd] && accepts[fd])
    case StreamData(_, _, written) => !written
    case StreamEnd(fd) => forall g: Fd | g != fd :: !OpenNow(cfg.prefix, run, g)
    case _ => false
  }

  // ---------- the state is what its inputs say ----------

  predicate Collects(cfg: Config, run: seq<Input>, s: Service) {
    && s.relay == Relay(ReplyText(cfg.prefix, run), SplitLines(Stderr(run)).rest)
    && s.errorOpen == StderrOpen(run)
    && s.capacity == Length(Need(cfg.prefix, run))
    && (ReplyText(cfg.prefix, run) != [] ==> Need(cfg.prefix, run) > |ReplyText(cfg.prefix, run)|)
  }

  function OpenNets(prefix: seq<byte>, run: seq<Input>): Nets {
    [OpenNow(prefix, run, DATA_FD), OpenNow(prefix, run, MESG_FD), OpenNow(prefix, run, INDEX_FD)]
  }

  predicate Stands(cfg: Config, run: seq<Input>, s: Service) {
    match s.phase
    case RepWait => !Replied(run) && LateTimeouts(run) == 0
    case AckWait =>
      && Replied(run) && s.rep == RepOf(cfg.prefix, run).body
      && s.nets == RepOf(cfg.prefix, run).nets == OpenNets(cfg.prefix, run)
      && s.retry == cfg.repTries - LateTimeouts(run)
    case Relaying => Replied(run) && s.nets == OpenNets(cfg.prefix, run)
    case Gone => true
  }

  // ---------- one more input ----------

  lemma OneLater(run: seq<Input>, i: Input)
    ensures run + [i] != [] && Earlier(run + [i]) == run && Latest(run + [i]) == i
  {}

  lemma {:induction false} EndLater(run: seq<Input>, i: Input)
    ensures EndAt(run + [i]) == if Replied(run) || i.ReplyEnd? then EndAt(run) else |run| + 1
  {
    if run != [] && !run[0].ReplyEnd? {
      assert (run + [i])[1..] == run[1..] + [i];
      EndLater(run[1..], i);
    }
  }

  lemma RepLater(prefix: seq<byte>, run: seq<Input>, i: Input)
    ensures Replied(run) ==> RepOf(prefix, run + [i]) == RepOf(prefix, run)
    ensures !Replied(run) && i.ReplyEnd? ==> RepOf(prefix, run + [i]) == RepPacket(CString(ReplyText(prefix, run + [i])), i.ids)
  {
    EndLater(run, i);
    hide RepPacket, ReplyText;
    if Replied(run) {
      assert (run + [i])[..EndAt(run) + 1] == run[..EndAt(run) + 1];
    } else if i.ReplyEnd? {
      assert (run + [i])[..|run| + 1] == run + [i];
    }
  }

  lemma LostLater(run: seq<Input>, i: Input, fd: Fd)
    ensures Replied(run) ==> (Lost(run + [i], fd) <==> Lost(run, fd) || LosesStream(i, fd))
    ensures !Replied(run) ==> !Lost(run + [i], fd)
  {
    EndLater(run, i);
    var run' := run + [i];
    if Replied(run) {
      if Lost(run, fd) {
        var k :| EndAt(run) < k < |run| && LosesStream(run[k], fd);
        assert run'[k] == run[k];
      }
      if LosesStream(i, fd) {
        assert run'[|run|] == i;
      }
      if Lost(run', fd) {
        var k :| EndAt(run') < k < |run'| && LosesStream(run'[k], fd);
        assert k < |run| ==> run[k] == run'[k];
      }
    }
  }

  lemma OpenLater(run: seq<Input>, i: Input)
    ensures StderrOpen(run + [i]) == (StderrOpen(run) && i != ErrorData([]) && !(i.ReplyEnd? && i.error == Some([])))
  {
    assert forall k | 0 <= k < |run| :: (run + [i])[k] == run[k];
    assert (run + [i])[|run|] == i;
  }

  lemma StderrLater(run: seq<Input>, i: Input)
    ensures var more := StderrOf(StderrOpen(run), i);
      && Stderr(run + [i]) == Stderr(run) + more
      && SplitLines(Stderr(run + [i])).rest == SplitLines(SplitLines(Stderr(run)).rest + more).rest
  {
    OneLater(run, i);
    hide SplitLines, StderrOf, StderrOpen;
    SplitAppend(Stderr(run), StderrOf(StderrOpen(run), i));
  }

  // ---------- the room ----------

  lemma {:induction false} DoubleTwice(n: nat, a: nat, b: nat)
    requires n > 0
    ensures Double(Double(n, a), b) == Double(n, Larger(a, b))
    decreases a - n
  {
    if n < a {
      DoubleTwice(2 * n, a, b);
    }
  }

  lemma GrownLength(need: nat, requested: nat)
    requires requested > 0
    ensures Grown(Length(need), requested) == Length(Larger(need, requested))
  {
    if need > 0 {
      DoubleTwice(NETWORK_BLOCK_BYTES, need, requested);
    }
  }

  /** Room that is there already need not be made. */
  lemma EnoughRoom(need: nat, requested: nat)
    requires 0 < need && requested <= Length(need)
    ensures Length(Larger(need, requested)) == Length(need)
  {
    DoubleTwice(NETWORK_BLOCK_BYTES, need, requested);
  }

  lemma {:induction false} TakeLinesRoom(prefix: seq<byte>, s: Service, need: nat)
    requires s.capacity == Length(need)
    ensures var t := TakeLines(prefix, s);
      |t.relay.reply| >= |s.relay.reply|
      && t.capacity == if t.relay.reply == s.relay.reply then s.capacity else Length(Larger(need, |t.relay.reply| + 1))
    decreases |s.relay.partial|
  {
    hide TakeLines, Length;
    TakeLinesStep(prefix, s);
    if !OneLine(s.relay.partial) {
      var s1 := TakeLine(prefix, s);
      assert |s1.relay.reply| > |s.relay.reply|;
      GrownLength(need, |s1.relay.reply| + 1);
      TakeLinesRoom(prefix, s1, Larger(need, |s1.relay.reply| + 1));
    }
  }

  /** A read from standard error, in terms of the text read. */
  lemma ReadErrorCollects(cfg: Config, s: Service, data: seq<byte>, need: nat)
    requires s.capacity == Length(need)
    ensures var t := ReadError(cfg, s, data); var text := s.relay.partial + CString(data);
      && t.relay == Relay(s.relay.reply + Messages(cfg.prefix, SplitLines(text).lines), SplitLines(text).rest)
      && t.errorOpen == (s.errorOpen && data != [])
      && t.capacity == if t.relay.reply == s.relay.reply then s.capacity else Length(Larger(need, |t.relay.reply| + 1))
  {
    ReadErrorIsReceive(cfg, s, data);
    var s1 := s.(errorOpen := s.errorOpen && data != [], relay := s.relay.(partial := s.relay.partial + CString(data)));
    hide SplitLines, Messages, TakeLines, Length;
    TakeLinesRoom(cfg.prefix, s1, need);
    TakeLinesOpen(cfg.prefix, s1);
  }

  lemma {:induction false} TakeLinesOpen(prefix: seq<byte>, s: Service)
    ensures TakeLines(prefix, s).errorOpen == s.errorOpen
    decreases |s.relay.partial|
  {
    hide TakeLines;
    TakeLinesStep(prefix, s);
    if !OneLine(s.relay.partial) {
      TakeLinesOpen(prefix, TakeLine(prefix, s));
    }
  }

  // ---------- what is collected ----------

  /** Nothing new on standard error finishes no line. */
  lemma NothingDone(prefix: seq<byte>, text: seq<byte>)
    ensures Messages(prefix, LinesDone(text, [])) == []
    ensures SplitLines(SplitLines(text).rest + []).rest == SplitLines(text).rest
  {
    var rest := SplitLines(text).rest;
    SplitInverse(text);
    NoNewline(rest);
    assert rest + [] == rest;
  }

  lemma TextLater(prefix: seq<byte>, run: seq<Input>, i: Input)
    ensures ReplyText(prefix, run + [i]) == ReplyText(prefix, run) + Adds(prefix, run, i)
  {
    OneLater(run, i);
    hide Adds;
  }

  lemma NeedLater(prefix: seq<byte>, run: seq<Input>, i: Input)
    ensures var all := ReplyText(prefix, run + [i]);
      Need(prefix, run + [i]) ==
        Larger(Larger(Need(prefix, run), if ReadsReply(i) then |ReplyText(prefix, run)| + 32 * 1024 + 1 else 0),
               if all == [] then 0 else |all| + 1)
  {
    OneLater(run, i);
    hide ReplyText, Larger;
  }

  lemma AddsNothing(prefix: seq<byte>, run: seq<Input>, i: Input)
    requires !i.ReplyEnd? && !i.ErrorData?
    ensures Adds(prefix, run, i) == if i.ReplyData? then i.data else []
    ensures SplitLines(Stderr(run + [i])).rest == SplitLines(Stderr(run)).rest && StderrOpen(run + [i]) == StderrOpen(run)
  {
    StderrLater(run, i);
    OpenLater(run, i);
    NothingDone(prefix, Stderr(run));
    hide SplitLines, Messages, LinesDone, Stderr, StderrOpen;
    var none: seq<byte> := [];
    assert forall x: seq<byte> :: x + none + none == x;
  }

  lemma AddsLines(prefix: seq<byte>, run: seq<Input>, i: Input, rest: seq<byte>)
    requires (i.ReplyEnd? || i.ErrorData?) && rest == SplitLines(Stderr(run)).rest
    ensures var text := rest + StderrOf(StderrOpen(run), i);
      && Adds(prefix, run, i) == Messages(prefix, SplitLines(text).lines) + (if i.ReplyEnd? then i.failure else [])
      && SplitLines(Stderr(run + [i])).rest == SplitLines(text).rest
  {
    StderrLater(run, i);
    hide SplitLines, Messages, Stderr, StderrOpen, StderrOf;
    var none: seq<byte> := [];
    assert forall x: seq<byte> :: none + x == x;
  }

  /** All that Collects says, by its parts. */
  lemma CollectsIs(cfg: Config, run: seq<Input>, i: Input, t: Service, text: seq<byte>)
    requires text == ReplyText(cfg.prefix, run + [i])
    requires t.relay == Relay(text, SplitLines(Stderr(run + [i])).rest) && t.errorOpen == StderrOpen(run + [i])
    requires var before := |ReplyText(cfg.prefix, run)|;
      t.capacity == Length(Larger(Larger(Need(cfg.prefix, run), if ReadsReply(i) then before + 32 * 1024 + 1 else 0),
                                  if text == [] then 0 else |text| + 1))
    ensures Collects(cfg, run + [i], t)
  {
    NeedLater(cfg.prefix, run, i);
    hide ReplyText, Stderr, SplitLines, Length, StderrOpen, Need;
  }

  lemma QuietCollects(cfg: Config, run: seq<Input>, s: Service, i: Input, t: Service)
    requires Collects(cfg, run, s) && !i.ReplyData? && !i.ReplyEnd? && !i.ErrorData? && !i.ReplyBroken?
    requires t.relay == s.relay && t.errorOpen == s.errorOpen && t.capacity == s.capacity
    ensures Collects(cfg, run + [i], t)
  {
    AddsNothing(cfg.prefix, run, i);
    TextLater(cfg.prefix, run, i);
    hide ReplyText, Stderr, SplitLines, Length, StderrOpen, Adds;
    var text := ReplyText(cfg.prefix, run);
    assert text + [] == text;
    CollectsIs(cfg, run, i, t, text);
  }

  /** Room for a block is made. */
  lemma RoomyLength(cfg: Config, run: seq<Input>, s: Service)
    requires Collects(cfg, run, s)
    ensures Roomy(s) == s.(capacity := Length(Larger(Need(cfg.prefix, run), |s.relay.reply| + 32 * 1024 + 1)))
  {
    hide Length;
    GrownLength(Need(cfg.prefix, run), |s.relay.reply| + 32 * 1024 + 1);
  }

  lemma BrokenCollects(cfg: Config, run: seq<Input>, s: Service)
    requires Collects(cfg, run, s)
    ensures Collects(cfg, run + [ReplyBroken], Roomy(s))
  {
    AddsNothing(cfg.prefix, run, ReplyBroken);
    TextLater(cfg.prefix, run, ReplyBroken);
    RoomyLength(cfg, run, s);
    hide ReplyText, Stderr, SplitLines, Length, StderrOpen, Adds, Roomy;
    var text := ReplyText(cfg.prefix, run);
    assert text + [] == text;
    CollectsIs(cfg, run, ReplyBroken, Roomy(s), text);
  }

  lemma DataCollects(cfg: Config, run: seq<Input>, s: Service, data: seq<byte>, t: Service)
    requires Collects(cfg, run, s) && 0 < |data| < Roomy(s).capacity - |s.relay.reply|
    requires t.relay == s.relay.(reply := s.relay.reply + data) && t.capacity == Roomy(s).capacity && t.errorOpen == s.errorOpen
    ensures Collects(cfg, run + [ReplyData(data)], t)
    ensures ReplyText(cfg.prefix, run + [ReplyData(data)]) == s.relay.reply + data
  {
    var i, reply, need := ReplyData(data), s.relay.reply, Need(cfg.prefix, run);
    hide ReplyText, Stderr, SplitLines, Length, StderrOpen, Adds, Roomy, Need;
    assert ReplyText(cfg.prefix, run + [i]) == reply + data
      && SplitLines(Stderr(run + [i])).rest == s.relay.partial && StderrOpen(run + [i]) == s.errorOpen by {
      AddsNothing(cfg.prefix, run, i);
      TextLater(cfg.prefix, run, i);
    }
    assert Roomy(s).capacity == Length(Larger(Larger(need, |reply| + 32 * 1024 + 1), |reply + data| + 1)) by {
      RoomyLength(cfg, run, s);
      EnoughRoom(Larger(need, |reply| + 32 * 1024 + 1), |reply + data| + 1);
    }
    CollectsIs(cfg, run, i, t, reply + data);
  }

  lemma ErrorCollects(cfg: Config, run: seq<Input>, s: Service, data: seq<byte>)
    requires Collects(cfg, run, s) && s.errorOpen
    ensures Collects(cfg, run + [ErrorData(data)], ReadError(cfg, s, data))
  {
    var i, need, t := ErrorData(data), Need(cfg.prefix, run), ReadError(cfg, s, data);
    hide ReplyText, Stderr, SplitLines, StderrOpen, Adds, ReadError, Need, Messages, CString;
    var text := s.relay.partial + CString(data);
    var lines := Messages(cfg.prefix, SplitLines(text).lines);
    assert Adds(cfg.prefix, run, i) == lines && SplitLines(Stderr(run + [i])).rest == SplitLines(text).rest by {
      AddsLines(cfg.prefix, run, i, s.relay.partial);
      assert lines + [] == lines;
    }
    assert ReplyText(cfg.prefix, run + [i]) == s.relay.reply + lines by { TextLater(cfg.prefix, run, i); }
    assert StderrOpen(run + [i]) == (s.errorOpen && data != []) by { OpenLater(run, i); }
    ReadErrorCollects(cfg, s, data, need);
    hide Length;
    RoomBehind(need, s, t.relay.reply, t.capacity);
    CollectsIs(cfg, run, i, t, t.relay.reply);
  }

  /** Where no line is added there is room behind what there was. */
  lemma RoomBehind(need: nat, s: Service, reply: seq<byte>, capacity: nat)
    requires s.capacity == Length(need) && (s.relay.reply != [] ==> need > |s.relay.reply|)
    requires capacity == if reply == s.relay.reply then s.capacity else Length(Larger(need, |reply| + 1))
    requires |reply| >= |s.relay.reply|
    ensures capacity == Length(Larger(need, if reply == [] then 0 else |reply| + 1))
  {}

  /** What a service has collected, and the room it has made for that. */
  predicate HasCollected(s: Service, reply: seq<byte>, partial: seq<byte>, open: bool, need: nat) {
    && s.relay == Relay(reply, partial) && s.errorOpen == open
    && s.capacity == Length(Larger(need, if reply == [] then 0 else |reply| + 1))
  }

  /** At the end of the reply, what there is on standard error, if that is open. */
  lemma EndReads(cfg: Config, s: Service, error: Option<seq<byte>>, need: nat, text: seq<byte>)
    requires s.capacity == Length(need) && OneLine(s.relay.partial) && need > |s.relay.reply|
    requires text == s.relay.partial + if s.errorOpen && error.Some? then CString(error.value) else []
    ensures HasCollected(if s.errorOpen && error.Some? then ReadError(cfg, s, error.value) else s,
      s.relay.reply + Messages(cfg.prefix, SplitLines(text).lines), SplitLines(text).rest, s.errorOpen && error != Some([]), need)
  {
    hide SplitLines, ReadError, CString, Length;
    if s.errorOpen && error.Some? {
      var t := ReadError(cfg, s, error.value);
      ReadErrorCollects(cfg, s, error.value, need);
      hide Messages;
      RoomBehind(need, s, t.relay.reply, t.capacity);
    } else {
      assert s.relay.partial + [] == s.relay.partial;
      NoNewline(s.relay.partial);
      assert s.relay.reply + [] == s.relay.reply;
    }
  }

  /** The failure message behind what was collected. */
  lemma EndFails(cfg: Config, s: Service, reply: seq<byte>, partial: seq<byte>, open: bool, failure: seq<byte>, need: nat)
    requires need > 0 && HasCollected(s, reply, partial, open, need)
    ensures HasCollected(if failure == [] then s else Added(s, failure), reply + failure, partial, open, need)
  {
    if failure == [] {
      assert reply + [] == reply;
    } else {
      hide Length;
      GrownLength(Larger(need, if reply == [] then 0 else |reply| + 1), |reply| + |failure| + 1);
    }
  }

  lemma RestIsOneLine(text: seq<byte>)
    ensures OneLine(SplitLines(text).rest)
  {
    SplitInverse(text);
  }

  lemma EndCollects(cfg: Config, run: seq<Input>, s: Service, i: Input)
    requires Collects(cfg, run, s) && i.ReplyEnd?
    ensures Collects(cfg, run + [i], Collected(cfg, s, i.error, i.failure))
  {
    var need := Larger(Need(cfg.prefix, run), |s.relay.reply| + 32 * 1024 + 1);
    var text := s.relay.partial + StderrOf(StderrOpen(run), i);
    var lines := Messages(cfg.prefix, SplitLines(text).lines);
    assert s.errorOpen == StderrOpen(run) && s.relay == Relay(ReplyText(cfg.prefix, run), SplitLines(Stderr(run)).rest);
    RoomyLength(cfg, run, s);
    RestIsOneLine(Stderr(run));
    hide ReplyText, Stderr, SplitLines, StderrOpen, Adds, ReadError, Need, Messages, CString, Roomy, Length, HasCollected, OneLine, Collects;
    EndReads(cfg, Roomy(s), i.error, need, text);
    EndFails(cfg, if s.errorOpen && i.error.Some? then ReadError(cfg, Roomy(s), i.error.value) else Roomy(s),
             s.relay.reply + lines, SplitLines(text).rest, s.errorOpen && i.error != Some([]), i.failure, need);
    AddsLines(cfg.prefix, run, i, s.relay.partial);
    EndIs(cfg, run, i, Collected(cfg, s, i.error, i.failure), lines, text, need);
  }

  lemma EndIs(cfg: Config, run: seq<Input>, i: Input, t: Service, lines: seq<byte>, text: seq<byte>, need: nat)
    requires i.ReplyEnd? && Adds(cfg.prefix, run, i) == lines + i.failure
    requires SplitLines(Stderr(run + [i])).rest == SplitLines(text).rest
    requires need == Larger(Need(cfg.prefix, run), |ReplyText(cfg.prefix, run)| + 32 * 1024 + 1)
    requires HasCollected(t, ReplyText(cfg.prefix, run) + lines + i.failure, SplitLines(text).rest,
                          StderrOpen(run) && i.error != Some([]), need)
    ensures Collects(cfg, run + [i], t)
  {
    hide ReplyText, Stderr, SplitLines, StderrOpen, Adds, Need, Length;
    TextLater(cfg.prefix, run, i);
    OpenLater(run, i);
    Assoc(ReplyText(cfg.prefix, run), lines, i.failure);
    CollectsIs(cfg, run, i, t, t.relay.reply);
  }

  // ---------- what is sent, and how it goes on ----------

  /** The service after an input that was possible. */
  predicate Goes(cfg: Config, run: seq<Input>, i: Input, t: Service) {
    Stands(cfg, run + [i], t) && (t.phase == Gone <==> GivesUp(cfg, run, i))
  }

  lemma TimeoutsLater(run: seq<Input>, i: Input)
    ensures LateTimeouts(run + [i]) == LateTimeouts(run) + if i == AckTimeout then 1 else 0
  {
    OneLater(run, i);
  }

  lemma StreamLater(prefix: seq<byte>, run: seq<Input>, i: Input, fd: Fd)
    ensures Replied(run) ==> (OpenNow(prefix, run + [i], fd) <==> OpenNow(prefix, run, fd) && !LosesStream(i, fd))
    ensures !Replied(run) ==> (OpenNow(prefix, run + [i], fd) <==> RepOf(prefix, run + [i]).nets[fd])
  {
    RepLater(prefix, run, i);
    LostLater(run, i, fd);
    hide RepOf, Lost, LosesStream, Replied;
  }

  /** Which streams are open after one more input. */
  lemma NetsLater(prefix: seq<byte>, run: seq<Input>, i: Input)
    requires Replied(run)
    ensures var nets, nets' := OpenNets(prefix, run), OpenNets(prefix, run + [i]);
      nets' == if i.Received? && i.kind == Ack then [nets[0] && i.accepts[0], nets[1] && i.accepts[1], nets[2] && i.accepts[2]]
               else if i.StreamEnd? then nets[i.fd := false] else nets
  {
    StreamLater(prefix, run, i, 0);
    StreamLater(prefix, run, i, 1);
    StreamLater(prefix, run, i, 2);
    hide OpenNow, Replied;
  }

  lemma FirstNets(prefix: seq<byte>, run: seq<Input>, i: Input)
    requires !Replied(run)
    ensures OpenNets(prefix, run + [i]) == RepOf(prefix, run + [i]).nets
  {
    StreamLater(prefix, run, i, 0);
    StreamLater(prefix, run, i, 1);
    StreamLater(prefix, run, i, 2);
    hide OpenNow, Replied, RepOf;
    ThreeNets(RepOf(prefix, run + [i]).nets);
  }

  lemma ThreeNets(nets: Nets)
    ensures nets == [nets[DATA_FD], nets[MESG_FD], nets[INDEX_FD]]
  {}

  /** Inputs that leave the streams and the REP as they are. */
  lemma StandsOn(cfg: Config, run: seq<Input>, s: Service, i: Input, t: Service)
    requires Stands(cfg, run, s) && !i.ReplyEnd? && !i.StreamEnd? && i != AckTimeout && !(i.Received? && i.kind == Ack && s.phase != RepWait)
    requires t.phase == Gone || Aside(s, t)
    ensures Stands(cfg, run + [i], t)
  {
    EndLater(run, i);
    TimeoutsLater(run, i);
    if Replied(run) {
      RepLater(cfg.prefix, run, i);
      NetsLater(cfg.prefix, run, i);
    }
    hide RepOf, OpenNets, LateTimeouts, EndAt;
  }

  predicate Alike(s: Service, t: Service) {
    s.relay == t.relay && s.capacity == t.capacity && s.errorOpen == t.errorOpen
  }

  predicate Follows(cfg: Config, run: seq<Input>, s: Service, i: Input, t: Service) {
    Goes(cfg, run, i, t) && t.log == s.log + [In(i)] + Sends(cfg, run, i)
  }

  /** Data on the reply pipe, with room for a block of it or not. */
  predicate DataStep(cfg: Config, s: Service, data: seq<byte>, room: bool, t: Service) {
    var text := s.relay.reply + data;
    && t.log == s.log + [In(ReplyData(data))] + (if cfg.partialReplies && room then [Out(SendPrep(CString(text)))] else [])
    && t.relay == s.relay.(reply := text) && t.capacity == Roomy(s).capacity && t.errorOpen == s.errorOpen && Aside(s, t)
  }

  lemma DataHandled(cfg: Config, s: Service, data: seq<byte>, room: bool)
    requires Possible(s, ReplyData(data)) && (room <==> Roomy(s).capacity == s.capacity)
    ensures DataStep(cfg, s, data, room, Handle(cfg, s, ReplyData(data)))
  {
    hide Grown, CString;
    var log := s.log + [In(ReplyData(data))];
    assert log + [] == log;
  }

  lemma RoomIs(cfg: Config, run: seq<Input>, s: Service)
    requires Collects(cfg, run, s)
    ensures HasRoom(cfg.prefix, run) <==> Roomy(s).capacity == s.capacity
  {}

  lemma DataGoes(cfg: Config, run: seq<Input>, s: Service, data: seq<byte>, t: Service)
    requires Stands(cfg, run, s) && DataStep(cfg, s, data, HasRoom(cfg.prefix, run), t) && s.phase == RepWait
    requires ReplyText(cfg.prefix, run + [ReplyData(data)]) == s.relay.reply + data
    ensures Follows(cfg, run, s, ReplyData(data), t)
  {
    hide HasRoom, ReplyText, RepOf, CString, Roomy;
    StandsOn(cfg, run, s, ReplyData(data), t);
    hide Stands, OpenNets;
  }

  lemma ReplyDataGoes(cfg: Config, run: seq<Input>, s: Service, data: seq<byte>)
    requires Collects(cfg, run, s) && Stands(cfg, run, s) && Possible(s, ReplyData(data))
    ensures Collects(cfg, run + [ReplyData(data)], Handle(cfg, s, ReplyData(data)))
    ensures Follows(cfg, run, s, ReplyData(data), Handle(cfg, s, ReplyData(data)))
  {
    RoomIs(cfg, run, s);
    DataHandled(cfg, s, data, HasRoom(cfg.prefix, run));
    assert 0 < |data| < Roomy(s).capacity - |s.relay.reply| && s.phase == RepWait;
    hide Handle, Roomy, HasRoom, Stands, Possible, ReplyText, CString, Collects, Follows;
    DataCollects(cfg, run, s, data, Handle(cfg, s, ReplyData(data)));
    DataGoes(cfg, run, s, data, Handle(cfg, s, ReplyData(data)));
  }

  /** The end of the reply: the REP is made and sent. */
  predicate EndStep(cfg: Config, s: Service, i: Input, p: Packet, t: Service) {
    && t.log == s.log + [In(i)] + [Out(SendRep(p.body))]
    && t.phase == AckWait && t.rep == p.body && t.nets == p.nets && t.retry == cfg.repTries
  }

  lemma EndHandled(cfg: Config, s: Service, i: Input)
    requires i.ReplyEnd? && Possible(s, i)
    ensures var s1 := Collected(cfg, s, i.error, i.failure);
      EndStep(cfg, s, i, RepPacket(CString(s1.relay.reply), i.ids), Handle(cfg, s, i)) && Alike(s1, Handle(cfg, s, i))
  {
    CollectedAside(cfg, s, i);
    hide Collected, RepPacket, CString;
  }

  lemma EndGoes(cfg: Config, run: seq<Input>, s: Service, i: Input, t: Service)
    requires !Replied(run) && LateTimeouts(run) == 0 && i.ReplyEnd?
    requires EndStep(cfg, s, i, RepPacket(CString(ReplyText(cfg.prefix, run + [i])), i.ids), t)
    ensures Follows(cfg, run, s, i, t)
  {
    hide RepPacket, CString, ReplyText;
    RepLater(cfg.prefix, run, i);
    StandsNow(cfg, run, i, t);
    hide RepOf, Stands;
  }

  lemma ReplyEndGoes(cfg: Config, run: seq<Input>, s: Service, i: Input)
    requires Collects(cfg, run, s) && Stands(cfg, run, s) && i.ReplyEnd? && Possible(s, i)
    ensures Collects(cfg, run + [i], Handle(cfg, s, i)) && Follows(cfg, run, s, i, Handle(cfg, s, i))
  {
    assert s.phase == RepWait && !Replied(run) && LateTimeouts(run) == 0;
    EndHandled(cfg, s, i);
    hide Handle, Stands, Possible, RepPacket, CString, Collected, Follows, EndStep, Alike, Replied, LateTimeouts;
    EndCollects(cfg, run, s, i);
    SameCollects(cfg, run + [i], Collected(cfg, s, i.error, i.failure), Handle(cfg, s, i));
    assert Collected(cfg, s, i.error, i.failure).relay.reply == ReplyText(cfg.prefix, run + [i]) by { TextCollected(cfg, run + [i], Collected(cfg, s, i.error, i.failure)); }
    hide Collects, ReplyText;
    EndGoes(cfg, run, s, i, Handle(cfg, s, i));
  }

  lemma TextCollected(cfg: Config, run: seq<Input>, s: Service)
    requires Collects(cfg, run, s)
    ensures s.relay.reply == ReplyText(cfg.prefix, run)
  {}

  lemma StandsNow(cfg: Config, run: seq<Input>, i: Input, t: Service)
    requires !Replied(run) && LateTimeouts(run) == 0 && i.ReplyEnd? && t.phase == AckWait
    requires var p := RepOf(cfg.prefix, run + [i]); t.rep == p.body && t.nets == p.nets && t.retry == cfg.repTries
    ensures Stands(cfg, run + [i], t)
  {
    EndLater(run, i);
    TimeoutsLater(run, i);
    FirstNets(cfg.prefix, run, i);
    hide RepOf, OpenNets, EndAt, LateTimeouts;
  }

  /** Collecting goes on beside the rest. */
  lemma CollectedAside(cfg: Config, s: Service, i: Input)
    requires i.ReplyEnd?
    ensures var s1 := Collected(cfg, Hear(s, i), i.error, i.failure);
      s1.log == s.log + [In(i)] && Alike(Collected(cfg, s, i.error, i.failure), s1) && Aside(s, s1)
  {
    if s.errorOpen && i.error.Some? {
      ReadErrorAside(cfg, Roomy(Hear(s, i)), i.error.value);
      ReadErrorAlike(cfg, Roomy(Hear(s, i)), Roomy(s), i.error.value);
    }
    hide ReadError;
  }

  lemma ReadErrorAlike(cfg: Config, s: Service, t: Service, data: seq<byte>)
    requires Alike(s, t)
    ensures Alike(ReadError(cfg, s, data), ReadError(cfg, t, data))
  {
    var more := s.relay.partial + CString(data);
    TakeLinesAlike(cfg.prefix, s.(errorOpen := s.errorOpen && data != [], relay := s.relay.(partial := more)),
                   t.(errorOpen := t.errorOpen && data != [], relay := t.relay.(partial := more)));
  }

  lemma {:induction false} TakeLinesAlike(prefix: seq<byte>, s: Service, t: Service)
    requires Alike(s, t)
    ensures Alike(TakeLines(prefix, s), TakeLines(prefix, t))
    decreases |s.relay.partial|
  {
    hide TakeLines;
    TakeLinesStep(prefix, s);
    TakeLinesStep(prefix, t);
    if !OneLine(s.relay.partial) {
      TakeLinesAlike(prefix, TakeLine(prefix, s), TakeLine(prefix, t));
    }
  }

  lemma SameCollects(cfg: Config, run: seq<Input>, s: Service, t: Service)
    requires Collects(cfg, run, s) && Alike(s, t)
    ensures Collects(cfg, run, t)
  {}

  lemma ErrorDataGoes(cfg: Config, run: seq<Input>, s: Service, data: seq<byte>)
    requires Collects(cfg, run, s) && Stands(cfg, run, s) && Possible(s, ErrorData(data))
    ensures Collects(cfg, run + [ErrorData(data)], Handle(cfg, s, ErrorData(data)))
    ensures Follows(cfg, run, s, ErrorData(data), Handle(cfg, s, ErrorData(data)))
  {
    var i := ErrorData(data);
    hide ReadError, Stands;
    assert Collects(cfg, run + [i], Handle(cfg, s, i)) by {
      ErrorCollects(cfg, run, s, data);
      ReadErrorAlike(cfg, Hear(s, i), s, data);
      hide Collects;
      SameCollects(cfg, run + [i], ReadError(cfg, s, data), Handle(cfg, s, i));
    }
    hide Collects;
    ReadErrorAside(cfg, Hear(s, i), data);
    StandsOn(cfg, run, s, i, Handle(cfg, s, i));
    var log := s.log + [In(i)];
    assert log + [] == log;
  }

  lemma AcceptOneIs(cfg: Config, s: Service, accepts: Nets, fd: Fd)
    ensures OneOffered(s, accepts, fd, AcceptOne(cfg, s, fd, accepts[fd]))
  {
    assert s.log + [] == s.log;
    assert s.nets[fd := s.nets[fd]] == s.nets;
  }

  /** The streams after all were offered, with the entries for that. */
  predicate Offered(s: Service, accepts: Nets, t: Service) {
    && t.log == s.log + (AcceptOf(s.nets, accepts, DATA_FD) + AcceptOf(s.nets, accepts, MESG_FD) + AcceptOf(s.nets, accepts, INDEX_FD))
    && t.nets == [s.nets[0] && accepts[0], s.nets[1] && accepts[1], s.nets[2] && accepts[2]]
    && Alike(s, t)
  }

  /** One stream after the other. */
  predicate OneOffered(s: Service, accepts: Nets, fd: Fd, t: Service) {
    t.log == s.log + AcceptOf(s.nets, accepts, fd) && t.nets == s.nets[fd := s.nets[fd] && accepts[fd]] && Alike(s, t)
  }

  lemma ThreeOffered(s: Service, accepts: Nets, s1: Service, s2: Service, s3: Service)
    requires OneOffered(s, accepts, DATA_FD, s1) && OneOffered(s1, accepts, MESG_FD, s2) && OneOffered(s2, accepts, INDEX_FD, s3)
    ensures Offered(s, accepts, s3)
  {
    assert AcceptOf(s1.nets, accepts, MESG_FD) == AcceptOf(s.nets, accepts, MESG_FD);
    assert AcceptOf(s2.nets, accepts, INDEX_FD) == AcceptOf(s.nets, accepts, INDEX_FD);
    hide AcceptOf;
    LogOfThree(s.log, AcceptOf(s.nets, accepts, DATA_FD), AcceptOf(s.nets, accepts, MESG_FD), AcceptOf(s.nets, accepts, INDEX_FD));
  }

  lemma LogOfThree(log: seq<Entry>, a: seq<Entry>, b: seq<Entry>, c: seq<Entry>)
    ensures log + a + b + c == log + (a + b + c)
  {}

  lemma AcceptAllIs(cfg: Config, s: Service, accepts: Nets)
    ensures Offered(s, accepts, AcceptUpTo(cfg, s, accepts, DATA_FD_COUNT))
  {
    AcceptThree(cfg, s, accepts);
    hide AcceptOne, AcceptUpTo, OneOffered, Offered;
    var s1 := AcceptOne(cfg, s, DATA_FD, accepts[DATA_FD]);
    var s2 := AcceptOne(cfg, s1, MESG_FD, accepts[MESG_FD]);
    AcceptOneIs(cfg, s, accepts, DATA_FD);
    AcceptOneIs(cfg, s1, accepts, MESG_FD);
    AcceptOneIs(cfg, s2, accepts, INDEX_FD);
    ThreeOffered(s, accepts, s1, s2, AcceptOne(cfg, s2, INDEX_FD, accepts[INDEX_FD]));
  }

  lemma AcceptThree(cfg: Config, s: Service, accepts: Nets)
    ensures AcceptUpTo(cfg, s, accepts, DATA_FD_COUNT) ==
      AcceptOne(cfg, AcceptOne(cfg, AcceptOne(cfg, s, DATA_FD, accepts[DATA_FD]), MESG_FD, accepts[MESG_FD]), INDEX_FD, accepts[INDEX_FD])
  {
    hide AcceptOne;
    assert AcceptUpTo(cfg, s, accepts, 0) == s;
    assert AcceptUpTo(cfg, s, accepts, 1) == AcceptOne(cfg, s, DATA_FD, accepts[DATA_FD]);
    assert AcceptUpTo(cfg, s, accepts, 2) == AcceptOne(cfg, AcceptUpTo(cfg, s, accepts, 1), MESG_FD, accepts[MESG_FD]);
  }

  lemma AckHandled(cfg: Config, s: Service, i: Input)
    requires i.Received? && i.kind == Ack
    ensures var t := AcceptAll(cfg, Hear(s, i), i.accepts);
      Offered(Hear(s, i), i.accepts, t) && t.phase == if t.nets == NO_NETS then Gone else Relaying
  {
    AcceptAllIs(cfg, Hear(s, i), i.accepts);
    hide AcceptUpTo, AcceptOf;
  }

  lemma AckStands(cfg: Config, run: seq<Input>, s: Service, accepts: Nets, t: Service)
    requires Stands(cfg, run, s) && s.phase == AckWait
    requires Offered(Hear(s, Received(Ack, accepts)), accepts, t) && t.phase == if t.nets == NO_NETS then Gone else Relaying
    ensures Stands(cfg, run + [Received(Ack, accepts)], t)
  {
    EndLater(run, Received(Ack, accepts));
    NetsLater(cfg.prefix, run, Received(Ack, accepts));
    hide RepOf, AcceptOf, OpenNets, EndAt, LateTimeouts, NO_NETS;
  }

  lemma AckGoes(cfg: Config, run: seq<Input>, s: Service, accepts: Nets, t: Service)
    requires Stands(cfg, run, s) && s.phase == AckWait
    requires Offered(Hear(s, Received(Ack, accepts)), accepts, t) && t.phase == if t.nets == NO_NETS then Gone else Relaying
    ensures Follows(cfg, run, s, Received(Ack, accepts), t)
  {
    hide RepOf, AcceptOf, OpenNets, LateTimeouts, EndAt;
    assert Stands(cfg, run + [Received(Ack, accepts)], t) by { AckStands(cfg, run, s, accepts, t); }
    assert Replied(run) && s.nets == RepOf(cfg.prefix, run).nets;
    hide Stands, Replied;
    NoneOpen(t.nets);
  }

  lemma NoneOpen(nets: Nets)
    ensures nets == NO_NETS <==> forall fd: Fd :: !nets[fd]
  {
    ThreeNets(nets);
  }

  lemma ReceivedGoes(cfg: Config, run: seq<Input>, s: Service, i: Input)
    requires Stands(cfg, run, s) && i.Received? && Possible(s, i)
    ensures Follows(cfg, run, s, i, Handle(cfg, s, i)) && Alike(s, Handle(cfg, s, i))
  {
    if s.phase == AckWait && i.kind == Ack {
      AckHandled(cfg, s, i);
      AckGoes(cfg, run, s, i.accepts, Handle(cfg, s, i));
      hide Follows, Offered, Possible;
    } else {
      hide RepOf, OpenNets, LateTimeouts, EndAt, AcceptAll, AcceptOf;
      StandsOn(cfg, run, s, i, Handle(cfg, s, i));
    }
  }

  predicate StreamStep(s: Service, i: Input, t: Service)
    requires i.StreamData? || i.StreamEnd? || i.StreamBroken?
  {
    && t.log == s.log + [In(i)] + (if i.StreamEnd? then [] else [Out(if i.StreamData? && i.written then Forward(i.fd, i.data) else SendNak)])
    && t.nets == (if i.StreamEnd? then s.nets[i.fd := false] else s.nets) && Alike(s, t)
    && t.phase == if i.StreamBroken? || (i.StreamData? && !i.written) || (i.StreamEnd? && t.nets == NO_NETS) then Gone else Relaying
  }

  lemma StreamHandled(cfg: Config, s: Service, i: Input)
    requires (i.StreamData? || i.StreamEnd? || i.StreamBroken?) && Possible(s, i)
    ensures StreamStep(s, i, Handle(cfg, s, i))
  {
    var log := s.log + [In(i)];
    assert log + [] == log;
    hide Next;
  }

  lemma StreamStands(cfg: Config, run: seq<Input>, s: Service, i: Input, t: Service)
    requires Stands(cfg, run, s) && (i.StreamData? || i.StreamEnd? || i.StreamBroken?) && s.phase == Relaying && StreamStep(s, i, t)
    ensures Stands(cfg, run + [i], t)
  {
    EndLater(run, i);
    NetsLater(cfg.prefix, run, i);
    hide RepOf, OpenNets, LateTimeouts, EndAt, NO_NETS;
  }

  lemma StreamGoes(cfg: Config, run: seq<Input>, s: Service, i: Input, t: Service)
    requires Stands(cfg, run, s) && (i.StreamData? || i.StreamEnd? || i.StreamBroken?) && s.phase == Relaying && StreamStep(s, i, t)
    ensures Follows(cfg, run, s, i, t)
  {
    hide OpenNow, RepOf, OpenNets, LateTimeouts, Replied;
    assert Stands(cfg, run + [i], t) by { StreamStands(cfg, run, s, i, t); }
    assert s.nets == OpenNets(cfg.prefix, run);
    hide Stands;
    if i.StreamEnd? {
      LastEnds(s.nets, i.fd);
      NowOpen(cfg.prefix, run);
    }
  }

  lemma LastEnds(nets: Nets, fd: Fd)
    ensures nets[fd := false] == NO_NETS <==> forall g: Fd | g != fd :: !nets[g]
  {
    NoneOpen(nets[fd := false]);
    assert forall g: Fd :: nets[fd := false][g] <==> g != fd && nets[g];
  }

  lemma NowOpen(prefix: seq<byte>, run: seq<Input>)
    ensures forall g: Fd :: OpenNow(prefix, run, g) <==> OpenNets(prefix, run)[g]
  {
    hide OpenNow;
  }

  predicate TimeoutStep(s: Service, t: Service) {
    && t.log == s.log + [In(AckTimeout)] + (if s.retry > 1 then [Out(SendRep(s.rep))] else [])
    && t == s.(log := t.log, phase := if s.retry > 1 then s.phase else Gone, retry := s.retry - 1)
  }

  lemma TimeoutHandled(cfg: Config, s: Service)
    requires Possible(s, AckTimeout)
    ensures TimeoutStep(s, Handle(cfg, s, AckTimeout))
  {
    var log := s.log + [In(AckTimeout)];
    assert log + [] == log;
  }

  lemma TimeoutStands(cfg: Config, run: seq<Input>, s: Service, t: Service)
    requires Stands(cfg, run, s) && s.phase == AckWait && TimeoutStep(s, t)
    ensures Stands(cfg, run + [AckTimeout], t)
  {
    EndLater(run, AckTimeout);
    TimeoutsLater(run, AckTimeout);
    RepLater(cfg.prefix, run, AckTimeout);
    NetsLater(cfg.prefix, run, AckTimeout);
    hide RepOf, OpenNets, LateTimeouts, EndAt;
  }

  lemma TimeoutGoes(cfg: Config, run: seq<Input>, s: Service, t: Service)
    requires Stands(cfg, run, s) && s.phase == AckWait && TimeoutStep(s, t)
    ensures Follows(cfg, run, s, AckTimeout, t)
  {
    hide RepOf, OpenNets, LateTimeouts, Replied;
    assert Stands(cfg, run + [AckTimeout], t) by { TimeoutStands(cfg, run, s, t); }
    assert s.rep == RepOf(cfg.prefix, run).body && s.retry == cfg.repTries - LateTimeouts(run);
    hide Stands;
  }

  lemma BrokenGoes(cfg: Config, run: seq<Input>, s: Service, i: Input)
    requires Collects(cfg, run, s) && (i.ReplyBroken? || i.ReplyTimeout?) && Possible(s, i)
    ensures Collects(cfg, run + [i], Handle(cfg, s, i)) && Follows(cfg, run, s, i, Handle(cfg, s, i))
  {
    hide Collects, Roomy;
    if i.ReplyBroken? {
      BrokenCollects(cfg, run, s);
      RoomyAlike(s, i);
      SameCollects(cfg, run + [i], Roomy(s), Handle(cfg, s, i));
    } else {
      QuietCollects(cfg, run, s, i, Handle(cfg, s, i));
    }
  }

  lemma RoomyAlike(s: Service, i: Input)
    ensures Alike(Roomy(s), Roomy(Hear(s, i))) && Roomy(Hear(s, i)).log == s.log + [In(i)]
  {}

  lemma QuietGoes(cfg: Config, run: seq<Input>, s: Service, i: Input)
    requires Stands(cfg, run, s) && Possible(s, i)
    requires i.Received? || i.AckTimeout? || i.StreamData? || i.StreamEnd? || i.StreamBroken?
    ensures Follows(cfg, run, s, i, Handle(cfg, s, i)) && Alike(s, Handle(cfg, s, i))
  {
    if i.Received? {
      ReceivedGoes(cfg, run, s, i);
    } else if i.AckTimeout? {
      TimeoutHandled(cfg, s);
      TimeoutGoes(cfg, run, s, Handle(cfg, s, i));
      hide Follows, Handle;
    } else {
      StreamHandled(cfg, s, i);
      StreamGoes(cfg, run, s, i, Handle(cfg, s, i));
      hide Follows, Handle;
    }
  }

  /** After one more input the service is again what its inputs say. */
  lemma HandleGoes(cfg: Config, run: seq<Input>, s: Service, i: Input)
    requires Collects(cfg, run, s) && Stands(cfg, run, s) && Possible(s, i)
    ensures Collects(cfg, run + [i], Handle(cfg, s, i)) && Follows(cfg, run, s, i, Handle(cfg, s, i))
  {
    hide Stands, Follows, Collects, Handle, Possible;
    match i
    case ReplyData(data) => ReplyDataGoes(cfg, run, s, data);
    case ReplyEnd(_, _, _) => ReplyEndGoes(cfg, run, s, i);
    case ErrorData(data) => ErrorDataGoes(cfg, run, s, data);
    case ReplyBroken => BrokenGoes(cfg, run, s, i);
    case ReplyTimeout => BrokenGoes(cfg, run, s, i);
    case _ =>
      QuietGoes(cfg, run, s, i);
      QuietCollects(cfg, run, s, i, Handle(cfg, s, i));
  }

  // ---------- for all runs ----------

  lemma {:induction false} RunLater(cfg: Config, s: Service, run: seq<Input>, i: Input)
    requires PossibleRun(cfg, s, run + [i])
    ensures PossibleRun(cfg, s, run) && Possible(After(cfg, s, run), i)
    ensures After(cfg, s, run + [i]) == Handle(cfg, After(cfg, s, run), i)
    decreases |run|
  {
    hide Possible, Handle;
    if run == [] {
      assert ([i])[1..] == [];
    } else {
      assert (run + [i])[1..] == run[1..] + [i];
      RunLater(cfg, Handle(cfg, s, run[0]), run[1..], i);
    }
  }

  lemma {:induction false} RunGoes(cfg: Config, run: seq<Input>)
    requires PossibleRun(cfg, START, run)
    ensures var s := After(cfg, START, run); Collects(cfg, run, s) && Stands(cfg, run, s) && s.log == History(cfg, run)
    decreases |run|
  {
    if run == [] {
      NoNewline([]);
    } else {
      var front, i := Earlier(run), Latest(run);
      assert run == front + [i];
      RunLater(cfg, START, front, i);
      RunGoes(cfg, front);
      hide Stands, Collects, Possible, Handle, PossibleRun, After, Sends, GivesUp;
      HandleGoes(cfg, front, After(cfg, START, front), i);
    }
  }

  /** In every run, the reply that a service has collected is the data, finished lines and message of its
      inputs, in order, and everything that it has sent is what they make it send. */
  lemma SaysWhatItHeard(cfg: Config, run: seq<Input>)
    requires PossibleRun(cfg, START, run)
    ensures After(cfg, START, run).relay.reply == ReplyText(cfg.prefix, run)
    ensures After(cfg, START, run).log == History(cfg, run)
  {
    RunGoes(cfg, run);
  }

  /** It is given up with exactly these inputs. */
  lemma GoneExactly(cfg: Config, run: seq<Input>, i: Input)
    requires PossibleRun(cfg, START, run + [i])
    ensures After(cfg, START, run + [i]).phase == Gone <==> GivesUp(cfg, run, i)
  {
    RunLater(cfg, START, run, i);
    RunGoes(cfg, run);
    hide Stands, Collects, Possible, Handle, PossibleRun, After, Sends, GivesUp, History;
    HandleGoes(cfg, run, After(cfg, START, run), i);
  }

  /** Its open streams are those that the REP names, that were accepted, and that have not ended. */
  lemma OpenExactly(cfg: Config, run: seq<Input>, fd: Fd)
    requires PossibleRun(cfg, START, run) && After(cfg, START, run).phase == Relaying
    ensures Replied(run) && (After(cfg, START, run).nets[fd] <==> OpenNow(cfg.prefix, run, fd))
  {
    RunGoes(cfg, run);
    NowOpen(cfg.prefix, run);
    hide OpenNow, OpenNets, PossibleRun, After, Collects;
  }

  // ---------- what follows ----------

  predicate SaysRep(cfg: Config, run: seq<Input>, e: Entry) {
    Replied(run) && e == Out(SendRep(RepOf(cfg.prefix, run).body))
  }

  lemma SaysRepLater(cfg: Config, run: seq<Input>, i: Input, e: Entry)
    requires SaysRep(cfg, run, e)
    ensures SaysRep(cfg, run + [i], e)
  {
    EndLater(run, i);
    RepLater(cfg.prefix, run, i);
    hide RepOf, EndAt;
  }

  lemma {:induction false} HistorySaysRep(cfg: Config, run: seq<Input>, h: nat)
    requires PossibleRun(cfg, START, run) && h < |History(cfg, run)| && IsRep(History(cfg, run)[h])
    ensures SaysRep(cfg, run, History(cfg, run)[h])
    decreases |run|
  {
    if run != [] {
      var front, i := Earlier(run), Latest(run);
      assert run == front + [i];
      assert PossibleRun(cfg, START, front) && LateReplied(cfg, front, i) by { LateIn(cfg, front, i); }
      hide PossibleRun, SaysRep, LateReplied, START;
      if h < |History(cfg, front)| {
        HistorySaysRep(cfg, front, h);
        SaysRepLater(cfg, front, i, History(cfg, front)[h]);
      } else {
        hide IsRep, Sends;
        RepSent(cfg, front, i, History(cfg, run)[h]);
      }
    }
  }

  lemma LateIn(cfg: Config, run: seq<Input>, i: Input)
    requires PossibleRun(cfg, START, run + [i])
    ensures PossibleRun(cfg, START, run) && LateReplied(cfg, run, i)
  {
    RunLater(cfg, START, run, i);
    RunGoes(cfg, run);
    hide PossibleRun, Stands, Possible, LateReplied, After, History, Collects;
    InputsLate(cfg, run, After(cfg, START, run), i);
  }

  /** Every REP of a run is made from what was collected by the end of the reply. */
  lemma RepSays(cfg: Config, run: seq<Input>, h: nat)
    requires PossibleRun(cfg, START, run) && h < |After(cfg, START, run).log| && IsRep(After(cfg, START, run).log[h])
    ensures SaysRep(cfg, run, After(cfg, START, run).log[h])
  {
    SaysWhatItHeard(cfg, run);
    hide SaysRep, PossibleRun, After;
    HistorySaysRep(cfg, run, h);
  }

  predicate LateReplied(cfg: Config, run: seq<Input>, i: Input) {
    i == AckTimeout ==> Replied(run)
  }

  lemma InputsLate(cfg: Config, run: seq<Input>, s: Service, i: Input)
    requires Stands(cfg, run, s) && Possible(s, i)
    ensures LateReplied(cfg, run, i)
  {
    hide Replied, RepOf, OpenNets, LateTimeouts;
  }

  lemma RepSent(cfg: Config, run: seq<Input>, i: Input, e: Entry)
    requires e in Sends(cfg, run, i) && IsRep(e) && LateReplied(cfg, run, i)
    ensures SaysRep(cfg, run + [i], e)
  {
    EndLater(run, i);
    hide RepOf, ReplyText, HasRoom, LateTimeouts, EndAt;
    if !i.ReplyEnd? {
      RepLater(cfg.prefix, run, i);
    }
  }

  /** The data read from the reply pipe. */
  function DataRead(run: seq<Input>): seq<seq<byte>> {
    if run == [] then [] else DataRead(Earlier(run)) + if Latest(run).ReplyData? then [Latest(run).data] else []
  }

  /** Nothing on standard error, and no failure. */
  predicate AllWell(i: Input) {
    !i.ErrorData? && (i.ReplyEnd? ==> i.failure == [] && (i.error == None || i.error == Some([])))
  }

  lemma {:induction false} QuietText(prefix: seq<byte>, run: seq<Input>)
    requires forall k | 0 <= k < |run| :: AllWell(run[k])
    ensures ReplyText(prefix, run) == Flatten(DataRead(run)) && Stderr(run) == []
    decreases |run|
  {
    if run != [] {
      var front, i := Earlier(run), Latest(run);
      QuietText(prefix, front);
      NothingDone(prefix, []);
      var pieces := DataRead(front);
      if i.ReplyData? {
        assert (pieces + [i.data])[..|pieces|] == pieces;
      } else {
        assert pieces + [] == pieces;
      }
      hide SplitLines, Messages;
      assert StderrOf(StderrOpen(front), i) == [];
    }
  }

  /** What the service wrote, where it wrote nothing on standard error, did not fail, and asks for no streams. */
  ghost predicate WroteOnly(upTo: seq<Input>, text: seq<byte>) {
    && text == CString(Flatten(DataRead(upTo))) && !HasConnectLine(text)
    && forall k | 0 <= k < |upTo| :: AllWell(upTo[k])
  }

  /** Then every REP is what it wrote on its reply pipe, as a C string. */
  lemma RepIsWhatWasWritten(cfg: Config, run: seq<Input>, h: nat, text: seq<byte>)
    requires PossibleRun(cfg, START, run) && h < |After(cfg, START, run).log| && IsRep(After(cfg, START, run).log[h])
    requires WroteOnly(UpToEnd(run), text)
    ensures After(cfg, START, run).log[h] == Out(SendRep(text))
  {
    RepSays(cfg, run, h);
    hide PossibleRun, After, WroteOnly, IsRep;
    WrittenIs(cfg, run, text);
  }

  lemma WrittenIs(cfg: Config, run: seq<Input>, text: seq<byte>)
    requires WroteOnly(UpToEnd(run), text) && Replied(run)
    ensures RepOf(cfg.prefix, run).body == text
  {
    var upTo := UpToEnd(run);
    QuietText(cfg.prefix, upTo);
    hide HasConnectLine, RepPacket, CString, ReplyText, DataRead, UpToEnd, AllWell;
    OtherReplies(text, run[EndAt(run)].ids);
  }

  /** The data read from one of the service's pipes and written to the server. */
  function PassedOn(run: seq<Input>, fd: Fd): seq<byte> {
    if run == [] then []
    else
      var i := Latest(run);
      PassedOn(Earlier(run), fd) + if i.StreamData? && i.fd == fd && i.written then i.data else []
  }

  lemma {:induction false} SentMore(x: seq<Entry>, y: seq<Entry>, fd: Fd)
    ensures Sent(x + y, fd) == Sent(x, fd) + Sent(y, fd)
    decreases |y|
  {
    if y == [] {
      assert x + y == x;
    } else {
      SentMore(x, y[..|y| - 1], fd);
      assert Front(x + y) == x + y[..|y| - 1] && Last(x + y) == Last(y);
    }
  }

  lemma SentBy(cfg: Config, run: seq<Input>, i: Input, fd: Fd)
    ensures Sent([In(i)] + Sends(cfg, run, i), fd) == if i.StreamData? && i.fd == fd && i.written then i.data else []
  {
    hide RepOf, ReplyText, HasRoom, LateTimeouts, Replied;
    var sends := Sends(cfg, run, i);
    SentMore([In(i)], sends, fd);
    assert Front([In(i)]) == [];
    if |sends| == 1 {
      assert Front(sends) == [] && sends == [sends[0]];
    } else if i.Received? {
      NoneForwarded(sends, fd);
    }
  }

  lemma {:induction false} NoneForwarded(x: seq<Entry>, fd: Fd)
    requires forall k | 0 <= k < |x| :: !IsForward(x[k])
    ensures Sent(x, fd) == []
  {
    if x != [] {
      NoneForwarded(Front(x), fd);
    }
  }

  lemma {:induction false} HistorySent(cfg: Config, run: seq<Input>, fd: Fd)
    ensures Sent(History(cfg, run), fd) == PassedOn(run, fd)
    decreases |run|
  {
    if run == [] {
      assert Front([Out(SendAck)]) == [];
    } else {
      var front, i := Earlier(run), Latest(run);
      HistorySent(cfg, front, fd);
      SentBy(cfg, front, i, fd);
      SentMore(History(cfg, front), [In(i)] + Sends(cfg, front, i), fd);
      hide Sends, Sent;
      assert History(cfg, run) == History(cfg, front) + ([In(i)] + Sends(cfg, front, i));
    }
  }

  /** What has been passed on of each stream is exactly what was read from its pipe and could be written,
      in order. */
  lemma StreamsUnchanged(cfg: Config, run: seq<Input>, fd: Fd)
    requires PossibleRun(cfg, START, run)
    ensures Sent(After(cfg, START, run).log, fd) == PassedOn(run, fd)
  {
    SaysWhatItHeard(cfg, run);
    HistorySent(cfg, run, fd);
  }

  // ---------- the messages of a sendbackup ----------

  /** The reads of its message pipe. */
  function MessagesRead(run: seq<Input>): seq<seq<byte>> {
    if run == [] then []
    else
      var i := Latest(run);
      MessagesRead(Earlier(run)) + if i.StreamData? && i.fd == MESG_FD then [i.data] else []
  }

  lemma ScanLater(cfg: Config, run: seq<Input>, s: Service, i: Input)
    requires cfg.sendbackup && Possible(s, i) && s.scan == ScanAll(MessagesRead(run))
    ensures Handle(cfg, s, i).scan == ScanAll(MessagesRead(run + [i]))
  {
    OneLater(run, i);
    var pieces := MessagesRead(run);
    hide Next;
    match i
    case StreamData(fd, data, _) =>
      if fd == MESG_FD {
        assert (pieces + [data])[..|pieces|] == pieces;
        if s.scan.seen { SeenStays(s.scan, data); }
      } else {
        assert pieces + [] == pieces;
      }
    case _ =>
      assert pieces + [] == pieces;
      ScanBeside(cfg, s, i);
  }

  lemma SeenStays(scan: Scan, data: seq<byte>)
    requires |scan.last| == INFO_END_LEN && scan.seen
    ensures Next(scan, data) == scan
  {}

  lemma ScanBeside(cfg: Config, s: Service, i: Input)
    requires Possible(s, i) && !i.StreamData?
    ensures Handle(cfg, s, i).scan == s.scan
  {
    match i
    case ErrorData(data) => ReadErrorAside(cfg, Hear(s, i), data);
    case ReplyEnd(error, _, _) =>
      if s.errorOpen && error.Some? { ReadErrorAside(cfg, Roomy(Hear(s, i)), error.value); }
      hide ReadError, RepPacket;
    case Received(_, accepts) =>
      AcceptScan(cfg, Hear(s, i), accepts, DATA_FD_COUNT);
      hide AcceptUpTo;
    case _ =>
  }

  lemma {:induction false} AcceptScan(cfg: Config, s: Service, accepts: Nets, n: nat)
    requires n <= DATA_FD_COUNT
    ensures AcceptUpTo(cfg, s, accepts, n).scan == s.scan
  {
    if n > 0 {
      AcceptScan(cfg, s, accepts, n - 1);
    }
  }

  lemma {:induction false} ScanFollows(cfg: Config, run: seq<Input>)
    requires cfg.sendbackup && PossibleRun(cfg, START, run)
    ensures After(cfg, START, run).scan == ScanAll(MessagesRead(run))
    decreases |run|
  {
    if run != [] {
      var front, i := Earlier(run), Latest(run);
      assert run == front + [i];
      RunLater(cfg, START, front, i);
      ScanFollows(cfg, front);
      hide PossibleRun, After, Possible, Handle, ScanAll;
      ScanLater(cfg, front, After(cfg, START, front), i);
    }
  }

  /** While its data stream is open, a sendbackup's data is read exactly if the end of its information was
      seen in the reads of its messages, whatever bytes they have and however they are cut (see SeenExactly). */
  lemma DataReadFor(cfg: Config, run: seq<Input>)
    requires cfg.sendbackup && PossibleRun(cfg, START, run)
    requires After(cfg, START, run).phase == Relaying && After(cfg, START, run).nets[DATA_FD]
    ensures After(cfg, START, run).reading[DATA_FD] <==> ScanAll(MessagesRead(run)).seen
  {
    ScanFollows(cfg, run);
    LogOrderly(cfg, run);
    hide PossibleRun, After, Orderly, Counted, Scanned, ScanAll;
  }
}
