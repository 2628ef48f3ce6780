/** One service that amandad runs for a server: what it does on each packet, pipe read and timeout. */
module ServiceProtocol {
  import opened Text
  import opened ErrorLines
  import opened InfoEndScan
  import opened ConnectReply

  const DATA_FD := 0
  const MESG_FD := 1
  const INDEX_FD := 2

  type Fd = n: nat | n < DATA_FD_COUNT

  /** The prefix of a relayed error line names the service. */
  datatype Config = Config(sendbackup: bool, partialReplies: bool, prefix: seq<byte>, repTries: int)

  datatype PacketType = Req | Ack | Other

  datatype Input =
    | ReplyData(data: seq<byte>)
    /** End of the reply: what there is to read on stderr, the message if the process failed, and
        the streams the security layer has to give. */
    | ReplyEnd(error: Option<seq<byte>>, failure: seq<byte>, ids: Ids)
    | ReplyBroken
    | ReplyTimeout
    | ErrorData(data: seq<byte>)
    /** A packet, and which streams can be accepted if it is the awaited ACK. */
    | Received(kind: PacketType, accepts: Nets)
    | AckTimeout
    /** A read from one of the service's data pipes, and whether writing it to the server works. */
    | StreamData(fd: Fd, data: seq<byte>, written: bool)
    | StreamEnd(fd: Fd)
    | StreamBroken(fd: Fd)

  datatype Output =
    | SendAck
    | SendNak
    | SendPrep(body: seq<byte>)
    | SendRep(body: seq<byte>)
    | Accept(fd: Fd, ok: bool)
    | Forward(fd: Fd, data: seq<byte>)

  datatype Entry = In(input: Input) | Out(output: Output)

  datatype Phase = RepWait | AckWait | Relaying | Gone

  /** capacity is the length of the reply buffer, reading tells which data pipes are watched. */
  datatype Service = Service(
    phase: Phase,
    relay: Relay,
    capacity: nat,
    errorOpen: bool,
    rep: seq<byte>,
    retry: int,
    nets: Nets,
    reading: Nets,
    scan: Scan,
    log: seq<Entry>)

  const START := Service(RepWait, Relay([], []), 0, true, [], 0, NO_NETS, NO_NETS, FRESH, [Out(SendAck)])

  predicate Possible(s: Service, i: Input) {
    && |s.scan.last| == INFO_END_LEN
    && match i
       case ReplyData(data) => s.phase == RepWait && 0 < |data| < Roomy(s).capacity - |s.relay.reply|
       case ReplyEnd(_, _, _) => s.phase == RepWait
       case ReplyBroken => s.phase == RepWait
       case ReplyTimeout => s.phase == RepWait
       case ErrorData(_) => s.phase != Gone && s.errorOpen
       case Received(_, _) => s.phase == RepWait || s.phase == AckWait
       case AckTimeout => s.phase == AckWait
       case StreamData(fd, data, _) => s.phase == Relaying && s.reading[fd] && s.nets[fd] && data != []
       case StreamEnd(fd) => s.phase == Relaying && s.reading[fd] && s.nets[fd]
       case StreamBroken(fd) => s.phase == Relaying && s.reading[fd] && s.nets[fd]
  }

  function Say(s: Service, o: Output): Service {
    s.(log := s.log + [Out(o)])
  }

  function Hear(s: Service, i: Input): Service {
    s.(log := s.log + [In(i)])
  }

  /** Appending to the reply, in a buffer that has room for more and a terminator. */
  function Added(s: Service, data: seq<byte>): Service {
    s.(relay := s.relay.(reply := s.relay.reply + data),
       capacity := Grown(s.capacity, |s.relay.reply| + |data| + 1))
  }

  /** Each complete line on stderr goes into the reply by itself. */
  function TakeLines(prefix: seq<byte>, s: Service): Service
    decreases |s.relay.partial|
  {
    var n := IndexOf(s.relay.partial, NEWLINE);
    if n == |s.relay.partial| then s
    else
      var s1 := Added(s, prefix + s.relay.partial[..n] + [NEWLINE]);
      TakeLines(prefix, s1.(relay := s1.relay.(partial := s.relay.partial[n + 1..])))
  }

  /** A read from stderr; nothing to read closes it. */
  function ReadError(cfg: Config, s: Service, data: seq<byte>): Service {
    TakeLines(cfg.prefix, s.(errorOpen := s.errorOpen && data != [],
                             relay := s.relay.(partial := s.relay.partial + CString(data))))
  }

  /** Before each read of the reply there is room for a block and a terminator. */
  function Roomy(s: Service): Service {
    s.(capacity := Grown(s.capacity, |s.relay.reply| + NETWORK_BLOCK_BYTES + 1))
  }

  function OnReplyData(cfg: Config, s: Service, data: seq<byte>): Service {
    var s0 := Roomy(s);
    var s1 := s0.(relay := s.relay.(reply := s.relay.reply + data));
    if s0.capacity == s.capacity && cfg.partialReplies then Say(s1, SendPrep(CString(s1.relay.reply))) else s1
  }

  /** The reply once its pipe has been read to the end. */
  function Collected(cfg: Config, s: Service, error: Option<seq<byte>>, failure: seq<byte>): Service {
    var s0 := Roomy(s);
    var s1 := if s0.errorOpen && error.Some? then ReadError(cfg, s0, error.value) else s0;
    if failure == [] then s1 else Added(s1, failure)
  }

  function Processed(cfg: Config, s: Service, ids: Ids): Service {
    var p := RepPacket(CString(s.relay.reply), ids);
    s.(phase := AckWait, rep := p.body, nets := p.nets, retry := cfg.repTries)
  }

  function OnReplyEnd(cfg: Config, s: Service, error: Option<seq<byte>>, failure: seq<byte>, ids: Ids): Service {
    var s1 := Processed(cfg, Collected(cfg, s, error, failure), ids);
    Say(s1, SendRep(s1.rep))
  }

  /** Accepting one stream; a sendbackup's data is not read yet. */
  function AcceptOne(cfg: Config, s: Service, fd: Fd, ok: bool): Service {
    if !s.nets[fd] then s
    else if !ok then Say(s, Accept(fd, false)).(nets := s.nets[fd := false])
    else Say(s, Accept(fd, true)).(reading := if fd == DATA_FD && cfg.sendbackup then s.reading else s.reading[fd := true])
  }

  function AcceptUpTo(cfg: Config, s: Service, accepts: Nets, n: nat): Service
    requires n <= DATA_FD_COUNT
  {
    if n == 0 then s else AcceptOne(cfg, AcceptUpTo(cfg, s, accepts, n - 1), n - 1, accepts[n - 1])
  }

  function AcceptAll(cfg: Config, s: Service, accepts: Nets): Service {
    var s1 := AcceptUpTo(cfg, s, accepts, DATA_FD_COUNT);
    s1.(phase := if s1.nets == NO_NETS then Gone else Relaying)
  }

  function OnPacket(cfg: Config, s: Service, kind: PacketType, accepts: Nets): Service {
    match kind
    case Req => if s.phase == RepWait then Say(s, SendAck) else Say(s, SendRep(s.rep))
    case Ack => if s.phase == RepWait then Say(s, SendNak) else AcceptAll(cfg, s, accepts)
    case Other => Say(s, SendNak)
  }

  function OnAckTimeout(s: Service): Service {
    var s1 := s.(retry := s.retry - 1);
    if s1.retry > 0 then Say(s1, SendRep(s1.rep)) else s1.(phase := Gone)
  }

  /** The messages of a sendbackup are searched for the end of its information; from then on its
      data is read. */
  function OnStreamData(cfg: Config, s: Service, fd: Fd, data: seq<byte>, written: bool): Service
    requires |s.scan.last| == INFO_END_LEN
  {
    var s1 :=
      if cfg.sendbackup && !s.scan.seen && fd == MESG_FD then
        var scan := Next(s.scan, data);
        s.(scan := scan, reading := if scan.seen then s.reading[DATA_FD := true] else s.reading)
      else s;
    if written then Say(s1, Forward(fd, data)) else Say(s1, SendNak).(phase := Gone)
  }

  function OnStreamEnd(s: Service, fd: Fd): Service {
    var nets := s.nets[fd := false];
    s.(reading := s.reading[fd := false], nets := nets, phase := if nets == NO_NETS then Gone else s.phase)
  }

  /** What the service does on an input. */
  function Handle(cfg: Config, s0: Service, i: Input): Service
    requires Possible(s0, i)
  {
    var s := Hear(s0, i);
    match i
    case ReplyData(data) => OnReplyData(cfg, s, data)
    case ReplyEnd(error, failure, ids) => OnReplyEnd(cfg, s, error, failure, ids)
    case ReplyBroken => Say(Roomy(s), SendNak).(phase := Gone)
    case ReplyTimeout => Say(s, SendNak).(phase := Gone)
    case ErrorData(data) => ReadError(cfg, s, data)
    case Received(kind, accepts) => OnPacket(cfg, s, kind, accepts)
    case AckTimeout => OnAckTimeout(s)
    case StreamData(fd, data, written) => OnStreamData(cfg, s, fd, data, written)
    case StreamEnd(fd) => OnStreamEnd(s, fd)
    case StreamBroken(fd) => Say(s, SendNak).(phase := Gone)
  }

  // ---------- runs ----------

  predicate PossibleRun(cfg: Config, s: Service, run: seq<Input>)
    decreases |run|
  {
    run != [] ==> Possible(s, run[0]) && PossibleRun(cfg, Handle(cfg, s, run[0]), run[1..])
  }

  function After(cfg: Config, s: Service, run: seq<Input>): Service
    requires PossibleRun(cfg, s, run)
    decreases |run|
  {
    if run == [] then s else After(cfg, Handle(cfg, s, run[0]), run[1..])
  }

  // ---------- counting in the log ----------

  function Front(log: seq<Entry>): seq<Entry>
    requires log != []
  {
    log[..|log| - 1]
  }

  function Last(log: seq<Entry>): Entry
    requires log != []
  {
    log[|log| - 1]
  }

  predicate IsRep(e: Entry) { e.Out? && e.output.SendRep? }
  predicate IsReq(e: Entry) { e.In? && e.input.Received? && e.input.kind == Req }
  predicate IsAck(e: Entry) { e.In? && e.input.Received? && e.input.kind == Ack }
  predicate IsTimeout(e: Entry) { e == In(AckTimeout) }
  predicate IsAccept(e: Entry) { e.Out? && e.output.Accept? }
  predicate IsForward(e: Entry) { e.Out? && e.output.Forward? }

  function Reps(log: seq<Entry>): nat {
    if log == [] then 0 else Reps(Front(log)) + if IsRep(Last(log)) then 1 else 0
  }

  /** The requests repeated while the REP was waiting for its ACK. */
  function DupReqs(log: seq<Entry>): nat {
    if log == [] then 0 else DupReqs(Front(log)) + if IsReq(Last(log)) && Reps(Front(log)) > 0 then 1 else 0
  }

  function Timeouts(log: seq<Entry>): nat {
    if log == [] then 0 else Timeouts(Front(log)) + if IsTimeout(Last(log)) then 1 else 0
  }

  /** The bytes of a pipe that were passed on to the server. */
  function Sent(log: seq<Entry>, fd: Fd): seq<byte> {
    if log == [] then []
    else
      Sent(Front(log), fd) + if IsForward(Last(log)) && Last(log).output.fd == fd then Last(log).output.data else []
  }

  /** Whether an ACK was received after a REP was sent. */
  predicate Acked(log: seq<Entry>) {
    log != [] && (Acked(Front(log)) || (IsAck(Last(log)) && Reps(Front(log)) > 0))
  }

  // ---------- what every entry of a log keeps ----------

  /** Streams are accepted only once a REP has been acknowledged, and used only once accepted;
      what REPs say never changes; a sendbackup's data follows its information. */
  ghost predicate Orderly(cfg: Config, rep: seq<byte>, log: seq<Entry>) {
    log != [] ==>
      && Orderly(cfg, rep, Front(log))
      && (IsRep(Last(log)) ==> Last(log).output.body == rep)
      && (IsAccept(Last(log)) || IsForward(Last(log)) ==> Acked(Front(log)))
      && (IsForward(Last(log)) && Last(log).output.fd == DATA_FD && cfg.sendbackup ==> Occurs(Sent(Front(log), MESG_FD)))
  }

  lemma OrderlyMore(cfg: Config, rep: seq<byte>, log: seq<Entry>, e: Entry)
    requires Orderly(cfg, rep, log)
    requires IsRep(e) ==> e.output.body == rep
    requires IsAccept(e) || IsForward(e) ==> Acked(log)
    requires IsForward(e) && e.output.fd == DATA_FD && cfg.sendbackup ==> Occurs(Sent(log, MESG_FD))
    ensures Orderly(cfg, rep, log + [e])
  {
    assert Front(log + [e]) == log && Last(log + [e]) == e;
  }

  lemma Counts(log: seq<Entry>, e: Entry)
    ensures Reps(log + [e]) == Reps(log) + if IsRep(e) then 1 else 0
    ensures DupReqs(log + [e]) == DupReqs(log) + if IsReq(e) && Reps(log) > 0 then 1 else 0
    ensures Timeouts(log + [e]) == Timeouts(log) + if IsTimeout(e) then 1 else 0
    ensures Acked(log + [e]) <==> Acked(log) || (IsAck(e) && Reps(log) > 0)
    ensures forall fd: Fd :: Sent(log + [e], fd) == if IsForward(e) && e.output.fd == fd then Sent(log, fd) + e.output.data else Sent(log, fd)
  {
    assert Front(log + [e]) == log && Last(log + [e]) == e;
  }

  function Max(a: int, b: int): int { if a < b then b else a }

  /** The number of REPs sent, exactly while the ACK is awaited. */
  predicate Counted(cfg: Config, s: Service) {
    match s.phase
    case RepWait => Reps(s.log) == 0 && DupReqs(s.log) == 0 && Timeouts(s.log) == 0 && !Acked(s.log)
    case AckWait =>
      && Reps(s.log) == 1 + Timeouts(s.log) + DupReqs(s.log)
      && s.retry == cfg.repTries - Timeouts(s.log) && (Timeouts(s.log) > 0 ==> s.retry > 0)
      && !Acked(s.log)
    case Relaying => Acked(s.log) && Reps(s.log) <= Max(1, cfg.repTries) + DupReqs(s.log)
    case Gone => Reps(s.log) <= Max(1, cfg.repTries) + DupReqs(s.log)
  }

  /** The scan is over what was passed on of the messages, and the data is read only after it. */
  ghost predicate Gated(cfg: Config, s: Service) {
    && |s.scan.last| == INFO_END_LEN
    && ((s.phase == RepWait || s.phase == AckWait) ==>
          s.reading == NO_NETS && s.scan == FRESH && (forall fd: Fd :: Sent(s.log, fd) == []))
    && (s.phase == Relaying && cfg.sendbackup ==> Scanned(s.scan, Sent(s.log, MESG_FD)))
    && (s.phase == Relaying && cfg.sendbackup ==> (s.reading[DATA_FD] ==> s.scan.seen))
    && (s.phase == Relaying && cfg.sendbackup && s.nets[DATA_FD] && s.scan.seen ==> s.reading[DATA_FD])
    && (s.phase == Relaying ==> s.nets != NO_NETS && Watched(cfg, s))
  }

  /** Every open stream's pipe is read and no other, but for the data of a sendbackup. */
  predicate Watched(cfg: Config, s: Service) {
    forall fd: Fd | !(cfg.sendbackup && fd == DATA_FD) :: s.reading[fd] <==> s.nets[fd]
  }

  ghost predicate Scanned(scan: Scan, sent: seq<byte>) {
    && |scan.last| == INFO_END_LEN
    && KeepsLast(scan, Dashes() + sent)
    && (scan.seen ==> Occurs(sent))
    && (NulFree(sent) ==> (scan.seen <==> Occurs(sent)))
  }

  ghost predicate Inv(cfg: Config, s: Service) {
    Orderly(cfg, s.rep, s.log) && Counted(cfg, s) && Gated(cfg, s)
  }

  // ---------- every step keeps the invariant ----------

  lemma StartInv(cfg: Config)
    ensures Inv(cfg, START)
  {
    var log: seq<Entry> := [];
    assert Orderly(cfg, [], log) && Reps(log) == 0 && DupReqs(log) == 0 && Timeouts(log) == 0 && !Acked(log);
    assert forall fd: Fd :: Sent(log, fd) == [];
    Counts(log, Out(SendAck));
    OrderlyMore(cfg, [], log, Out(SendAck));
    assert START.log == log + [Out(SendAck)];
  }

  /** Entries that change no count. */
  predicate Plain(e: Entry) {
    !IsRep(e) && !IsReq(e) && !IsTimeout(e) && !IsAck(e) && !IsAccept(e) && !IsForward(e)
  }

  /** Only the bookkeeping of the reply differs, and entries that change no count were added. */
  predicate Aside(s: Service, t: Service) {
    && t.phase == s.phase && t.rep == s.rep && t.retry == s.retry && t.nets == s.nets && t.reading == s.reading && t.scan == s.scan
  }

  lemma PlainInv(cfg: Config, s: Service, t: Service, e: Entry)
    requires Inv(cfg, s) && Aside(s, t) && t.log == s.log + [e] && Plain(e)
    ensures Inv(cfg, t)
  {
    OrderlyMore(cfg, s.rep, s.log, e);
    Counts(s.log, e);
    hide Orderly, Acked, Reps, DupReqs, Timeouts, Sent, Scanned;
  }

  lemma AsideInv(cfg: Config, s: Service, t: Service)
    requires Inv(cfg, s) && Aside(s, t) && t.log == s.log
    ensures Inv(cfg, t)
  {}

  lemma {:induction false} TakeLinesAside(prefix: seq<byte>, s: Service)
    ensures Aside(s, TakeLines(prefix, s)) && TakeLines(prefix, s).log == s.log
    decreases |s.relay.partial|
  {
    var n := IndexOf(s.relay.partial, NEWLINE);
    if n < |s.relay.partial| {
      var s1 := Added(s, prefix + s.relay.partial[..n] + [NEWLINE]);
      TakeLinesAside(prefix, s1.(relay := s1.relay.(partial := s.relay.partial[n + 1..])));
    }
  }

  lemma ReadErrorAside(cfg: Config, s: Service, data: seq<byte>)
    ensures Aside(s, ReadError(cfg, s, data)) && ReadError(cfg, s, data).log == s.log
  {
    TakeLinesAside(cfg.prefix, s.(errorOpen := s.errorOpen && data != [],
                                  relay := s.relay.(partial := s.relay.partial + CString(data))));
  }

  /** A service that gives up. */
  lemma GoneInv(cfg: Config, s: Service, t: Service, e: Entry)
    requires Inv(cfg, s) && e == Out(SendNak) && t == Say(s, e.output).(phase := Gone)
    ensures Inv(cfg, t)
  {
    OrderlyMore(cfg, s.rep, s.log, e);
    Counts(s.log, e);
  }

  lemma {:induction false} OrderlyBefore(cfg: Config, rep: seq<byte>, rep': seq<byte>, log: seq<Entry>)
    requires Orderly(cfg, rep, log) && Reps(log) == 0
    ensures Orderly(cfg, rep', log)
  {
    if log != [] {
      OrderlyBefore(cfg, rep, rep', Front(log));
    }
  }

  lemma ReplyDataInv(cfg: Config, s: Service, data: seq<byte>)
    requires Inv(cfg, s) && Possible(s, ReplyData(data))
    ensures Inv(cfg, Handle(cfg, s, ReplyData(data)))
  {
    var s1 := Hear(s, ReplyData(data));
    hide Inv;
    PlainInv(cfg, s, s1, In(ReplyData(data)));
    var t := OnReplyData(cfg, s1, data);
    if t.log != s1.log {
      PlainInv(cfg, s1, t, Last(t.log));
    } else {
      AsideInv(cfg, s1, t);
    }
  }

  lemma FirstRep(cfg: Config, s: Service, t: Service)
    requires Inv(cfg, s) && s.phase == RepWait
    requires t.phase == AckWait && t.retry == cfg.repTries && t.reading == s.reading && t.scan == s.scan
    requires t.log == s.log + [Out(SendRep(t.rep))]
    ensures Inv(cfg, t)
  {
    OrderlyBefore(cfg, s.rep, t.rep, s.log);
    OrderlyMore(cfg, t.rep, s.log, Out(SendRep(t.rep)));
    Counts(s.log, Out(SendRep(t.rep)));
  }

  lemma ReplyEndInv(cfg: Config, s: Service, i: Input)
    requires Inv(cfg, s) && Possible(s, i) && i.ReplyEnd?
    ensures Inv(cfg, Handle(cfg, s, i))
  {
    var s1 := Hear(s, i);
    hide Inv;
    PlainInv(cfg, s, s1, In(i));
    var s2 := Roomy(s1);
    if i.error.Some? {
      ReadErrorAside(cfg, s2, i.error.value);
    }
    FirstRep(cfg, s1, Handle(cfg, s, i));
  }

  lemma RepAgain(cfg: Config, s: Service, t: Service, i: Input)
    requires Inv(cfg, s) && s.phase == AckWait
    requires
      || (t == Say(Hear(s, i), SendRep(s.rep)) && i.Received? && i.kind == Req)
      || (t == Say(Hear(s, i).(retry := s.retry - 1), SendRep(s.rep)) && i == AckTimeout && s.retry > 1)
    ensures Inv(cfg, t)
  {
    var log1 := s.log + [In(i)];
    OrderlyMore(cfg, s.rep, s.log, In(i));
    OrderlyMore(cfg, s.rep, log1, Out(SendRep(s.rep)));
    Counts(s.log, In(i));
    Counts(log1, Out(SendRep(s.rep)));
  }

  lemma AckTimeoutInv(cfg: Config, s: Service)
    requires Inv(cfg, s) && Possible(s, AckTimeout)
    ensures Inv(cfg, Handle(cfg, s, AckTimeout))
  {
    if s.retry > 1 {
      RepAgain(cfg, s, Handle(cfg, s, AckTimeout), AckTimeout);
    } else {
      OrderlyMore(cfg, s.rep, s.log, In(AckTimeout));
      Counts(s.log, In(AckTimeout));
    }
  }

  /** The state between the ACK and the last stream accepted. */
  ghost predicate Accepting(cfg: Config, s: Service) {
    && Orderly(cfg, s.rep, s.log) && Acked(s.log) && Reps(s.log) <= Max(1, cfg.repTries) + DupReqs(s.log)
    && s.scan == FRESH && (forall fd: Fd :: Sent(s.log, fd) == [])
    && (cfg.sendbackup ==> !s.reading[DATA_FD])
  }

  lemma AcceptOneKeeps(cfg: Config, s: Service, fd: Fd, ok: bool)
    requires Accepting(cfg, s)
    ensures Accepting(cfg, AcceptOne(cfg, s, fd, ok))
  {
    OrderlyMore(cfg, s.rep, s.log, Out(Accept(fd, ok)));
    Counts(s.log, Out(Accept(fd, ok)));
  }

  lemma AcceptedInv(cfg: Config, s: Service, t: Service)
    requires Accepting(cfg, s) && Watched(cfg, s) && t == s.(phase := if s.nets == NO_NETS then Gone else Relaying)
    ensures Inv(cfg, t)
  {
    assert Dashes() + [] == Dashes();
    FreshScanned();
  }

  lemma FreshScanned()
    ensures Scanned(FRESH, [])
  {
    assert Dashes() + [] == Dashes();
  }

  lemma AckInv(cfg: Config, s: Service, i: Input)
    requires Inv(cfg, s) && s.phase == AckWait && i.Received? && i.kind == Ack
    ensures Inv(cfg, AcceptAll(cfg, Hear(s, i), i.accepts))
  {
    OrderlyMore(cfg, s.rep, s.log, In(i));
    Counts(s.log, In(i));
    var s0 := Hear(s, i);
    assert Accepting(cfg, s0);
    hide Accepting, AcceptUpTo, Inv;
    AcceptUpToKeeps(cfg, s0, i.accepts, DATA_FD_COUNT);
    assert s0.reading == NO_NETS by { Unread(cfg, s, s0); }
    AcceptUpToWatches(cfg, s0, i.accepts, DATA_FD_COUNT);
    AcceptedInv(cfg, AcceptUpTo(cfg, s0, i.accepts, DATA_FD_COUNT), AcceptAll(cfg, s0, i.accepts));
  }

  lemma {:induction false} AcceptUpToKeeps(cfg: Config, s: Service, accepts: Nets, n: nat)
    requires Accepting(cfg, s) && n <= DATA_FD_COUNT
    ensures Accepting(cfg, AcceptUpTo(cfg, s, accepts, n))
  {
    hide Accepting, AcceptOne;
    if n > 0 {
      AcceptUpToKeeps(cfg, s, accepts, n - 1);
      AcceptOneKeeps(cfg, AcceptUpTo(cfg, s, accepts, n - 1), n - 1, accepts[n - 1]);
    }
  }

  lemma Unread(cfg: Config, s: Service, s0: Service)
    requires Inv(cfg, s) && s.phase == AckWait && s0.reading == s.reading
    ensures s0.reading == NO_NETS
  {}

  /** The streams below n have been dealt with. */
  predicate WatchedBelow(cfg: Config, s: Service, n: nat) {
    forall fd: Fd :: s.reading[fd] <==> fd < n && s.nets[fd] && !(cfg.sendbackup && fd == DATA_FD)
  }

  lemma AcceptOneWatches(cfg: Config, s: Service, fd: Fd, ok: bool)
    requires WatchedBelow(cfg, s, fd)
    ensures WatchedBelow(cfg, AcceptOne(cfg, s, fd, ok), fd + 1)
  {
    assert !s.reading[fd];
  }

  lemma {:induction false} AcceptUpToWatches(cfg: Config, s: Service, accepts: Nets, n: nat)
    requires s.reading == NO_NETS && n <= DATA_FD_COUNT
    ensures WatchedBelow(cfg, AcceptUpTo(cfg, s, accepts, n), n)
  {
    hide AcceptOne;
    if n > 0 {
      AcceptUpToWatches(cfg, s, accepts, n - 1);
      AcceptOneWatches(cfg, AcceptUpTo(cfg, s, accepts, n - 1), n - 1, accepts[n - 1]);
    }
  }

  lemma EarlyRequest(cfg: Config, s: Service, i: Input)
    requires Inv(cfg, s) && s.phase == RepWait && i.Received?
    ensures Inv(cfg, Hear(s, i))
  {
    OrderlyMore(cfg, s.rep, s.log, In(i));
    Counts(s.log, In(i));
  }

  lemma ReceivedInv(cfg: Config, s: Service, i: Input)
    requires Inv(cfg, s) && Possible(s, i) && i.Received?
    ensures Inv(cfg, OnPacket(cfg, Hear(s, i), i.kind, i.accepts))
  {
    var s1 := Hear(s, i);
    hide Inv, AcceptAll;
    if s.phase == RepWait {
      EarlyRequest(cfg, s, i);
      var o := if i.kind == Req then SendAck else SendNak;
      PlainInv(cfg, s1, Say(s1, o), Out(o));
    } else if i.kind == Ack {
      AckInv(cfg, s, i);
    } else if i.kind == Req {
      RepAgain(cfg, s, Say(s1, SendRep(s.rep)), i);
    } else {
      PlainInv(cfg, s, s1, In(i));
      PlainInv(cfg, s1, Say(s1, SendNak), Out(SendNak));
    }
  }

  lemma NextScanned(scan: Scan, sent: seq<byte>, data: seq<byte>)
    requires Scanned(scan, sent)
    ensures Scanned(Next(scan, data), sent + data)
  {
    NextKeepsLast(scan, Dashes() + sent, data);
    JoinRight(Dashes(), sent, data);
    NextSound(scan, sent, data);
    if NulFree(sent + data) {
      NextExact(scan, sent, data);
    }
  }

  lemma ForwardInv(cfg: Config, s: Service, fd: Fd, data: seq<byte>)
    requires Inv(cfg, s) && s.phase == Relaying && s.reading[fd] && Acked(s.log)
    ensures Inv(cfg, OnStreamData(cfg, s, fd, data, true))
  {
    var e := Out(Forward(fd, data));
    if fd == DATA_FD && cfg.sendbackup {
      assert Occurs(Sent(s.log, MESG_FD));
    }
    OrderlyMore(cfg, s.rep, s.log, e);
    Counts(s.log, e);
    if cfg.sendbackup && fd == MESG_FD {
      ScanOn(s.scan, Sent(s.log, MESG_FD), data);
    }
    hide Orderly, Acked, Reps, DupReqs, Timeouts, Sent, Scanned, Next;
  }

  /** A finished scan stays finished. */
  lemma ScanOn(scan: Scan, sent: seq<byte>, data: seq<byte>)
    requires Scanned(scan, sent)
    ensures Scanned(if scan.seen then scan else Next(scan, data), sent + data)
  {
    NextScanned(scan, sent, data);
  }

  lemma EndInv(cfg: Config, s: Service, fd: Fd)
    requires Inv(cfg, s) && s.phase == Relaying
    ensures Inv(cfg, OnStreamEnd(s, fd))
  {
    hide Orderly, Acked, Reps, DupReqs, Timeouts, Sent, Scanned;
  }

  lemma StreamInv(cfg: Config, s: Service, i: Input)
    requires Inv(cfg, s) && Possible(s, i) && (i.StreamData? || i.StreamEnd?)
    ensures Inv(cfg, Handle(cfg, s, i))
  {
    var s1 := Hear(s, i);
    PlainInv(cfg, s, s1, In(i));
    assert Acked(s1.log);
    hide Inv, OnStreamEnd;
    if i.StreamEnd? {
      EndInv(cfg, s1, i.fd);
    } else if i.written {
      ForwardInv(cfg, s1, i.fd, i.data);
    } else {
      NotWritten(cfg, s1, i.fd, i.data);
    }
  }

  lemma NotWritten(cfg: Config, s: Service, fd: Fd, data: seq<byte>)
    requires Inv(cfg, s) && s.phase == Relaying
    ensures Inv(cfg, OnStreamData(cfg, s, fd, data, false))
  {
    OrderlyMore(cfg, s.rep, s.log, Out(SendNak));
    Counts(s.log, Out(SendNak));
    hide Orderly, Acked, Reps, DupReqs, Timeouts, Sent, Scanned;
  }

  lemma GiveUpInv(cfg: Config, s: Service, i: Input)
    requires Inv(cfg, s) && Possible(s, i) && (i.StreamBroken? || i.ReplyBroken? || i.ReplyTimeout?)
    ensures Inv(cfg, Handle(cfg, s, i))
  {
    hide Inv;
    var s1 := if i.ReplyBroken? then Roomy(Hear(s, i)) else Hear(s, i);
    PlainInv(cfg, s, Hear(s, i), In(i));
    AsideInv(cfg, Hear(s, i), s1);
    GoneInv(cfg, s1, Handle(cfg, s, i), Out(SendNak));
  }

  lemma HandleInv(cfg: Config, s: Service, i: Input)
    requires Inv(cfg, s) && Possible(s, i)
    ensures Inv(cfg, Handle(cfg, s, i))
  {
    hide Inv;
    match i
    case ReplyData(data) => ReplyDataInv(cfg, s, data);
    case ReplyEnd(_, _, _) => ReplyEndInv(cfg, s, i);
    case ErrorData(data) =>
      PlainInv(cfg, s, Hear(s, i), In(i));
      ReadErrorAside(cfg, Hear(s, i), data);
      AsideInv(cfg, Hear(s, i), Handle(cfg, s, i));
    case Received(_, _) => ReceivedInv(cfg, s, i);
    case AckTimeout => AckTimeoutInv(cfg, s);
    case StreamData(_, _, _) => StreamInv(cfg, s, i);
    case StreamEnd(_) => StreamInv(cfg, s, i);
    case _ => GiveUpInv(cfg, s, i);
  }

  lemma {:induction false} RunInv(cfg: Config, s: Service, run: seq<Input>)
    requires Inv(cfg, s) && PossibleRun(cfg, s, run)
    ensures Inv(cfg, After(cfg, s, run))
    decreases |run|
  {
    hide Inv, Possible, Handle;
    if run != [] {
      HandleInv(cfg, s, run[0]);
      RunInv(cfg, Handle(cfg, s, run[0]), run[1..]);
    }
  }

  // ---------- the theorems, for runs in every order of packets, pipe reads and timeouts ----------

  lemma {:induction false} OrderlyAt(cfg: Config, rep: seq<byte>, log: seq<Entry>, k: nat)
    requires Orderly(cfg, rep, log) && k < |log|
    ensures IsRep(log[k]) ==> log[k].output.body == rep
    ensures IsAccept(log[k]) || IsForward(log[k]) ==> Acked(log[..k])
    ensures IsForward(log[k]) && log[k].output.fd == DATA_FD && cfg.sendbackup ==> Occurs(Sent(log[..k], MESG_FD))
  {
    hide Sent, Occurs, Acked;
    if k < |log| - 1 {
      OrderlyAt(cfg, rep, Front(log), k);
      assert Front(log)[..k] == log[..k] && Front(log)[k] == log[k];
    }
  }

  lemma {:induction false} RepsMeans(log: seq<Entry>) returns (h: nat)
    requires Reps(log) > 0
    ensures h < |log| && IsRep(log[h])
  {
    if IsRep(Last(log)) {
      h := |log| - 1;
    } else {
      h := RepsMeans(Front(log));
    }
  }

  lemma {:induction false} AckedMeans(log: seq<Entry>) returns (h: nat, j: nat)
    requires Acked(log)
    ensures h < j < |log| && IsRep(log[h]) && IsAck(log[j])
  {
    if Acked(Front(log)) {
      h, j := AckedMeans(Front(log));
    } else {
      j := |log| - 1;
      h := RepsMeans(Front(log));
    }
  }

  lemma LogOrderly(cfg: Config, run: seq<Input>)
    requires PossibleRun(cfg, START, run)
    ensures Inv(cfg, After(cfg, START, run))
  {
    StartInv(cfg);
    RunInv(cfg, START, run);
  }

  /** A stream is accepted, or written to, only after an ACK that was received after a REP was sent. */
  lemma StreamsAfterAck(cfg: Config, run: seq<Input>, k: nat) returns (h: nat, j: nat)
    requires PossibleRun(cfg, START, run) && k < |After(cfg, START, run).log|
    requires var e := After(cfg, START, run).log[k]; IsAccept(e) || IsForward(e)
    ensures var log := After(cfg, START, run).log; h < j < k && IsRep(log[h]) && IsAck(log[j])
  {
    LogOrderly(cfg, run);
    var s := After(cfg, START, run);
    OrderlyAt(cfg, s.rep, s.log, k);
    h, j := AckedMeans(s.log[..k]);
  }

  /** Every REP of a service, sent again for whatever reason, is the same. */
  lemma RepsIdentical(cfg: Config, run: seq<Input>, h: nat, k: nat)
    requires PossibleRun(cfg, START, run) && h < |After(cfg, START, run).log| && k < |After(cfg, START, run).log|
    requires IsRep(After(cfg, START, run).log[h]) && IsRep(After(cfg, START, run).log[k])
    ensures After(cfg, START, run).log[h] == After(cfg, START, run).log[k]
  {
    LogOrderly(cfg, run);
    var s := After(cfg, START, run);
    OrderlyAt(cfg, s.rep, s.log, h);
    OrderlyAt(cfg, s.rep, s.log, k);
  }

  /** It is sent at most as often as configured (but once at least) and once more for each request
      repeated in the meantime; exactly once, and once more for each timeout and each such request,
      while the ACK is awaited. */
  lemma RepsBounded(cfg: Config, run: seq<Input>)
    requires PossibleRun(cfg, START, run)
    ensures var s := After(cfg, START, run);
      && Reps(s.log) <= Max(1, cfg.repTries) + DupReqs(s.log)
      && (s.phase == AckWait ==> Reps(s.log) == 1 + Timeouts(s.log) + DupReqs(s.log))
      && (s.phase == AckWait ==> Timeouts(s.log) < Max(1, cfg.repTries))
  {
    LogOrderly(cfg, run);
  }

  /** No byte of a sendbackup's data is passed on before its messages said that the information ends. */
  lemma DataAfterInfo(cfg: Config, run: seq<Input>, k: nat)
    requires cfg.sendbackup && PossibleRun(cfg, START, run) && k < |After(cfg, START, run).log|
    requires var e := After(cfg, START, run).log[k]; IsForward(e) && e.output.fd == DATA_FD
    ensures Occurs(Sent(After(cfg, START, run).log[..k], MESG_FD))
  {
    LogOrderly(cfg, run);
    var s := After(cfg, START, run);
    OrderlyAt(cfg, s.rep, s.log, k);
  }

  /** While a sendbackup's data stream is open, its data is read exactly if that was said, for
      messages without NULs. */
  lemma DataReadExactly(cfg: Config, run: seq<Input>)
    requires cfg.sendbackup && PossibleRun(cfg, START, run)
    requires var s := After(cfg, START, run);
      s.phase == Relaying && s.nets[DATA_FD] && NulFree(Sent(s.log, MESG_FD))
    ensures var s := After(cfg, START, run); s.reading[DATA_FD] <==> Occurs(Sent(s.log, MESG_FD))
  {
    LogOrderly(cfg, run);
  }

  /** Some pipe whose stream is open is being read. */
  predicate Hears(s: Service) {
    exists fd: Fd :: s.reading[fd] && s.nets[fd]
  }

  /** Some inputs make amandad give the service up. */
  ghost predicate CanEnd(cfg: Config, s: Service) {
    exists run :: PossibleRun(cfg, s, run) && After(cfg, s, run).phase == Gone
  }

  /** With no open stream's pipe being read, nothing but stderr is heard of any more. */
  lemma {:induction false} Stuck(cfg: Config, s: Service, run: seq<Input>)
    requires s.phase == Relaying && !Hears(s) && PossibleRun(cfg, s, run)
    ensures After(cfg, s, run).phase == Relaying && After(cfg, s, run).nets == s.nets
    decreases |run|
  {
    if run != [] {
      if run[0].ErrorData? {
        ReadErrorAside(cfg, Hear(s, run[0]), run[0].data);
        hide ReadError;
        Stuck(cfg, Handle(cfg, s, run[0]), run[1..]);
      }
    }
  }

  lemma BreaksOff(cfg: Config, s: Service, fd: Fd)
    requires Inv(cfg, s) && s.phase == Relaying && s.reading[fd] && s.nets[fd]
    ensures PossibleRun(cfg, s, [StreamBroken(fd)]) && After(cfg, s, [StreamBroken(fd)]).phase == Gone
  {}

  /** In every run, a service whose streams are open can still come to an end if and only if a pipe
      with an open stream is read. */
  lemma EndsExactly(cfg: Config, run: seq<Input>)
    requires PossibleRun(cfg, START, run) && After(cfg, START, run).phase == Relaying
    ensures var s := After(cfg, START, run); CanEnd(cfg, s) <==> Hears(s)
  {
    LogOrderly(cfg, run);
    var s := After(cfg, START, run);
    hide Inv, PossibleRun, After;
    if Hears(s) {
      var fd: Fd :| s.reading[fd] && s.nets[fd];
      BreaksOff(cfg, s, fd);
    } else if CanEnd(cfg, s) {
      var more :| PossibleRun(cfg, s, more) && After(cfg, s, more).phase == Gone;
      Stuck(cfg, s, more);
    }
  }

  /** In every run, a service is stuck with open streams if and only if it is a sendbackup whose
      message and index streams have ended, or were never there, before its information was seen to
      end: the data stream is open then, and nothing reads its pipe. */
  lemma StuckExactly(cfg: Config, run: seq<Input>)
    requires PossibleRun(cfg, START, run) && After(cfg, START, run).phase == Relaying
    ensures var s := After(cfg, START, run);
      && (!CanEnd(cfg, s) <==> cfg.sendbackup && !s.nets[MESG_FD] && !s.nets[INDEX_FD] && !s.scan.seen)
      && (!CanEnd(cfg, s) ==> s.nets[DATA_FD] && !s.reading[DATA_FD])
  {
    LogOrderly(cfg, run);
    EndsExactly(cfg, run);
    hide CanEnd, PossibleRun, After, Orderly, Counted, Scanned;
    var s := After(cfg, START, run);
    assert s.nets == [s.nets[0], s.nets[1], s.nets[2]];
    assert s.reading[MESG_FD] == s.nets[MESG_FD] && s.reading[INDEX_FD] == s.nets[INDEX_FD];
  }

  // ---------- the reply buffer ----------

  predicate Spare(s: Service) {
    if s.capacity == 0 then s.relay.reply == [] else |s.relay.reply| < s.capacity
  }

  /** Taking one line off. */
  function TakeLine(prefix: seq<byte>, s: Service): Service
    requires !OneLine(s.relay.partial)
  {
    var n := IndexOf(s.relay.partial, NEWLINE);
    var s1 := Added(s, prefix + s.relay.partial[..n] + [NEWLINE]);
    s1.(relay := s1.relay.(partial := s.relay.partial[n + 1..]))
  }

  lemma TakeLinesStep(prefix: seq<byte>, s: Service)
    ensures TakeLines(prefix, s) == if OneLine(s.relay.partial) then s else TakeLines(prefix, TakeLine(prefix, s))
  {}

  lemma MessagesFirst(prefix: seq<byte>, line: seq<byte>, lines: seq<seq<byte>>)
    ensures Messages(prefix, [line] + lines) == prefix + line + [NEWLINE] + Messages(prefix, lines)
  {
    assert ([line] + lines)[1..] == lines;
  }

  lemma {:induction false} TakeLinesSpare(prefix: seq<byte>, s: Service)
    requires Spare(s)
    ensures Spare(TakeLines(prefix, s))
    decreases |s.relay.partial|
  {
    hide TakeLines;
    TakeLinesStep(prefix, s);
    if !OneLine(s.relay.partial) {
      TakeLinesSpare(prefix, TakeLine(prefix, s));
    }
  }

  predicate RelayedFrom(prefix: seq<byte>, r: Relay, reply: seq<byte>, t: Split) {
    r == Relay(reply + Messages(prefix, t.lines), t.rest)
  }

  lemma TakeLineRelayed(prefix: seq<byte>, s: Service, r: Relay)
    requires !OneLine(s.relay.partial)
    requires var s1 := TakeLine(prefix, s); RelayedFrom(prefix, r, s1.relay.reply, SplitLines(s1.relay.partial))
    ensures RelayedFrom(prefix, r, s.relay.reply, SplitLines(s.relay.partial))
  {
    var partial := s.relay.partial;
    var n := IndexOf(partial, NEWLINE);
    var later := SplitLines(partial[n + 1..]);
    assert SplitLines(partial) == Split([partial[..n]] + later.lines, later.rest);
    assert TakeLine(prefix, s).relay == Relay(s.relay.reply + (prefix + partial[..n] + [NEWLINE]), partial[n + 1..]);
    hide SplitLines, Messages, IndexOf, TakeLine, Added, Grown;
    MessagesFirst(prefix, partial[..n], later.lines);
    Assoc(s.relay.reply, prefix + partial[..n] + [NEWLINE], Messages(prefix, later.lines));
  }

  lemma {:induction false} TakeLinesRelay(prefix: seq<byte>, s: Service)
    ensures RelayedFrom(prefix, TakeLines(prefix, s).relay, s.relay.reply, SplitLines(s.relay.partial))
    decreases |s.relay.partial|
  {
    hide TakeLines, RelayedFrom, SplitLines;
    TakeLinesStep(prefix, s);
    if OneLine(s.relay.partial) {
      NoNewline(s.relay.partial);
      assert RelayedFrom(prefix, s.relay, s.relay.reply, Split([], s.relay.partial)) by { NoneRelayed(prefix, s.relay); }
    } else {
      TakeLinesRelay(prefix, TakeLine(prefix, s));
      TakeLineRelayed(prefix, s, TakeLines(prefix, s).relay);
    }
  }

  lemma NoneRelayed(prefix: seq<byte>, r: Relay)
    ensures RelayedFrom(prefix, r, r.reply, Split([], r.partial))
  {
    NoMessages(prefix, r.reply);
  }

  /** What a read from stderr adds to the reply depends only on the text so far (see RelayExact). */
  lemma ReadErrorIsReceive(cfg: Config, s: Service, data: seq<byte>)
    ensures ReadError(cfg, s, data).relay == Receive(cfg.prefix, s.relay, data)
    ensures Spare(s) ==> Spare(ReadError(cfg, s, data))
  {
    hide TakeLines;
    var s1 := s.(errorOpen := s.errorOpen && data != [], relay := s.relay.(partial := s.relay.partial + CString(data)));
    TakeLinesRelay(cfg.prefix, s1);
    if Spare(s) {
      TakeLinesSpare(cfg.prefix, s1);
    }
  }

  /** A byte stays spare in the reply buffer, whatever happens. */
  lemma {:induction false} AlwaysSpare(cfg: Config, s: Service, run: seq<Input>)
    requires Spare(s) && PossibleRun(cfg, s, run)
    ensures Spare(After(cfg, s, run))
    decreases |run|
  {
    hide Handle, Possible, Spare;
    if run != [] {
      HandleSpare(cfg, s, run[0]);
      AlwaysSpare(cfg, Handle(cfg, s, run[0]), run[1..]);
    }
  }

  lemma HandleSpare(cfg: Config, s: Service, i: Input)
    requires Spare(s) && Possible(s, i)
    ensures Spare(Handle(cfg, s, i))
  {
    hide ReadError, RepPacket, SplitLines, AcceptUpTo;
    var s1 := Hear(s, i);
    match i
    case ErrorData(data) => ReadErrorIsReceive(cfg, s1, data);
    case ReplyEnd(error, failure, ids) =>
      if error.Some? {
        ReadErrorIsReceive(cfg, Roomy(s1), error.value);
      }
    case Received(kind, accepts) => AcceptSpare(cfg, s1, accepts, DATA_FD_COUNT);
    case _ =>
  }

  lemma {:induction false} AcceptSpare(cfg: Config, s: Service, accepts: Nets, n: nat)
    requires n <= DATA_FD_COUNT
    ensures AcceptUpTo(cfg, s, accepts, n).relay == s.relay && AcceptUpTo(cfg, s, accepts, n).capacity == s.capacity
  {
    if n > 0 {
      AcceptSpare(cfg, s, accepts, n - 1);
    }
  }
}
