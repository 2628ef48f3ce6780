/** amandad's active service: the record that its event handlers update. */
module ActiveService {
  import opened Text
  import opened ErrorLines
  import opened InfoEndScan
  import opened ConnectReply
  import opened ServiceProtocol

  datatype State = StateRepWait | StateProcessRep | StateSendRep | StateAckWait
  datatype Action = Pending | Continue | SendNakAction | Finish

  class ActiveService {
    const cfg: Config
    var state: State
    var reply: ReplyBuffer
    var errbuf: seq<byte>
    var errorOpen: bool
    var rep: seq<byte>
    var repretry: int
    var nets: Nets
    var reading: Nets
    var infoEndBuf: seq<byte>
    var seenInfoEnd: bool
    /** The control connection is closed once the streams run, and everything once it is deleted. */
    var connected: bool
    var deleted: bool
    ghost var log: seq<Entry>

    ghost predicate Valid()
      reads this, reply
    {
      reply.Valid() && |infoEndBuf| == INFO_END_LEN
    }

    ghost function Phase(): Phase
      reads this
    {
      if deleted then Gone
      else if !connected then Relaying
      else if state == StateRepWait || state == StateProcessRep then RepWait
      else AckWait
    }

    ghost function Abs(): Service
      reads this, reply, reply.buf
      requires Valid()
    {
      Service(Phase(), Relay(reply.Contents(), errbuf), reply.buf.Length, errorOpen, rep, repretry, nets, reading,
              Scan(seenInfoEnd, infoEndBuf), log)
    }

    /** A new service acknowledges its request and waits for its reply. */
    constructor (cfg: Config)
      ensures Valid() && fresh(reply) && fresh(reply.buf) && this.cfg == cfg
      ensures state == StateRepWait && Abs() == START
    {
      this.cfg, state := cfg, StateRepWait;
      reply := new ReplyBuffer();
      errbuf, errorOpen, rep, repretry := [], true, [], 0;
      nets, reading := NO_NETS, NO_NETS;
      infoEndBuf, seenInfoEnd := Dashes(), false;
      connected, deleted, log := true, false, [Out(SendAck)];
    }

    ghost method Say(o: Output)
      modifies this`log
      ensures log == old(log) + [Out(o)]
    {
      log := log + [Out(o)];
    }

    /** Appends to the reply, with room for a terminator. */
    method AddToReply(data: seq<byte>)
      requires Valid()
      modifies reply, reply.buf
      ensures Valid() && (reply.buf == old(reply.buf) || fresh(reply.buf))
      ensures Abs() == Added(old(Abs()), data)
    {
      var expanded := reply.Expand(|data|);
      reply.Append(data);
    }

    method AddLine(n: nat)
      requires Valid() && n == IndexOf(errbuf, NEWLINE) < |errbuf|
      modifies this`errbuf, reply, reply.buf
      ensures Valid() && (reply.buf == old(reply.buf) || fresh(reply.buf))
      ensures |errbuf| < |old(errbuf)| && !OneLine(old(errbuf)) && Abs() == TakeLine(cfg.prefix, old(Abs()))
    {
      AddToReply(cfg.prefix + errbuf[..n] + [NEWLINE]);
      errbuf := errbuf[n + 1..];
    }

    /** Reads stderr, and adds the complete lines to the reply. */
    method ErrfdRecv(data: seq<byte>)
      requires Valid()
      modifies this`errbuf, this`errorOpen, reply, reply.buf
      ensures Valid() && (reply.buf == old(reply.buf) || fresh(reply.buf))
      ensures Abs() == ReadError(cfg, old(Abs()), data)
    {
      hide TakeLines, TakeLine, CString, IndexOf;
      if data == [] {
        errorOpen := false;
      }
      errbuf := errbuf + CString(data);
      var n := IndexOf(errbuf, NEWLINE);
      while n < |errbuf|
        invariant n == IndexOf(errbuf, NEWLINE)
        invariant Valid() && (reply.buf == old(reply.buf) || fresh(reply.buf))
        invariant TakeLines(cfg.prefix, Abs()) == ReadError(cfg, old(Abs()), data)
        decreases |errbuf|
      {
        ghost var before := Abs();
        TakeLinesStep(cfg.prefix, before);
        AddLine(n);
        n := IndexOf(errbuf, NEWLINE);
      }
      TakeLinesStep(cfg.prefix, Abs());
    }

    /** Waiting for the reply: a packet, the timeout, or data from the reply pipe. */
    method SRepWait(i: Input) returns (action: Action)
      requires Valid() && state == StateRepWait && connected && !deleted && Possible(Abs(), i)
      requires i.Received? || i.ReplyTimeout? || i.ReplyBroken? || i.ReplyData? || i.ReplyEnd?
      modifies this`errbuf, this`errorOpen, this`log, this`state, reply, reply.buf
      ensures Valid() && (reply.buf == old(reply.buf) || fresh(reply.buf))
      ensures connected && !deleted && (action != Continue ==> state == StateRepWait)
      ensures match i
        case Received(kind, _) =>
          if kind == Req then action == Pending && Abs() == ServiceProtocol.Say(old(Abs()), SendAck)
          else action == SendNakAction && Abs() == old(Abs())
        case ReplyData(data) => action == Pending && Abs() == OnReplyData(cfg, old(Abs()), data)
        case ReplyEnd(error, failure, _) =>
          action == Continue && state == StateProcessRep && Abs() == Collected(cfg, old(Abs()), error, failure)
        case ReplyBroken => action == Finish && Abs() == ServiceProtocol.Say(Roomy(old(Abs())), SendNak)
        case _ => action == Finish && Abs() == ServiceProtocol.Say(old(Abs()), SendNak)
    {
      if i.Received? {
        if i.kind == Req {
          Say(SendAck);
          return Pending;
        }
        return SendNakAction;
      }
      if i.ReplyTimeout? {
        Say(SendNak);
        return Finish;
      }
      action := ReadReply(i);
    }

    method ReadReply(i: Input) returns (action: Action)
      requires Valid() && state == StateRepWait && connected && !deleted && Possible(Abs(), i)
      requires i.ReplyBroken? || i.ReplyData? || i.ReplyEnd?
      modifies this`errbuf, this`errorOpen, this`log, this`state, reply, reply.buf
      ensures Valid() && (reply.buf == old(reply.buf) || fresh(reply.buf)) && connected && !deleted
      ensures action != Continue ==> state == StateRepWait
      ensures i.ReplyData? ==> action == Pending && Abs() == OnReplyData(cfg, old(Abs()), i.data)
      ensures i.ReplyEnd? ==>
        action == Continue && state == StateProcessRep && Abs() == Collected(cfg, old(Abs()), i.error, i.failure)
      ensures i.ReplyBroken? ==> action == Finish && Abs() == ServiceProtocol.Say(Roomy(old(Abs())), SendNak)
    {
      var expanded := reply.Expand(NETWORK_BLOCK_BYTES);
      if i.ReplyBroken? {
        Say(SendNak);
        action := Finish;
      } else if i.ReplyData? {
        reply.Append(i.data);
        if !expanded && cfg.partialReplies {
          Say(SendPrep(CString(reply.Contents())));
        }
        action := Pending;
      } else {
        EndReply(i.error, i.failure);
        action := Continue;
      }
    }

    /** The reply pipe is at its end: what is left on stderr, and why the process failed, go with the reply. */
    method EndReply(error: Option<seq<byte>>, failure: seq<byte>)
      requires Valid() && state == StateRepWait && connected && !deleted
      modifies this`errbuf, this`errorOpen, this`state, reply, reply.buf
      ensures Valid() && (reply.buf == old(reply.buf) || fresh(reply.buf))
      ensures state == StateProcessRep
      ensures var s1 := if old(errorOpen) && error.Some? then ReadError(cfg, old(Abs()), error.value) else old(Abs());
        Abs() == if failure == [] then s1 else Added(s1, failure)
    {
      hide ReadError;
      if errorOpen && error.Some? {
        ErrfdRecv(error.value);
      }
      if failure != [] {
        AddToReply(failure);
      }
      state := StateProcessRep;
    }

    /** Makes the REP out of the reply, opening the streams of its CONNECT line. */
    method SProcessRep(ids: Ids) returns (action: Action)
      requires Valid() && state == StateProcessRep && connected && !deleted
      modifies this`rep, this`nets, this`repretry, this`state
      ensures Valid() && action == Continue && state == StateSendRep
      ensures Abs() == Processed(cfg, old(Abs()), ids)
    {
      hide RepPacket, CString;
      var p := RepPacket(CString(reply.buf[..reply.size]), ids);
      rep, nets := p.body, p.nets;
      repretry := cfg.repTries;
      state := StateSendRep;
      action := Continue;
    }

    method SSendRep() returns (action: Action)
      requires Valid() && state == StateSendRep && connected && !deleted
      modifies this`log, this`state
      ensures Valid() && action == Pending && state == StateAckWait
      ensures Abs() == ServiceProtocol.Say(old(Abs()), SendRep(old(rep)))
    {
      Say(SendRep(rep));
      state := StateAckWait;
      action := Pending;
    }

    /** Waiting for the ACK: a packet or the timeout. */
    method SAckWait(i: Input) returns (action: Action)
      requires Valid() && state == StateAckWait && connected && !deleted
      requires i.Received? || i == AckTimeout
      modifies this`repretry, this`state, this`log, this`nets, this`reading, this`connected
      ensures Valid() && !deleted && (action != Continue ==> state == StateAckWait)
      ensures i == AckTimeout ==>
        && connected && Abs() == old(Abs()).(retry := old(repretry) - 1)
        && if repretry > 0 then action == Continue && state == StateSendRep else action == Finish
      ensures i.Received? && i.kind == Req ==> connected && action == Continue && state == StateSendRep && Abs() == old(Abs())
      ensures i.Received? && i.kind == Other ==> connected && action == SendNakAction && Abs() == old(Abs())
      ensures i.Received? && i.kind == Ack ==>
        && (action == Pending || action == Finish)
        && Abs().(phase := if action == Finish then Gone else Abs().phase) == AcceptAll(cfg, old(Abs()), i.accepts)
    {
      if i == AckTimeout {
        repretry := repretry - 1;
        if repretry > 0 {
          state := StateSendRep;
          return Continue;
        }
        return Finish;
      }
      if i.kind == Req {
        state := StateSendRep;
        return Continue;
      }
      if i.kind != Ack { return SendNakAction; }
      action := OpenStreams(i.accepts);
    }

    /** Accepts the streams; a service without one is done. */
    method OpenStreams(accepts: Nets) returns (action: Action)
      requires Valid() && state == StateAckWait && connected && !deleted
      modifies this`log, this`nets, this`reading, this`connected
      ensures Valid() && !deleted && (action == Pending || action == Finish)
      ensures Abs().(phase := if action == Finish then Gone else Abs().phase) == AcceptAll(cfg, old(Abs()), accepts)
    {
      for fd := 0 to DATA_FD_COUNT
        invariant Valid() && state == StateAckWait && connected && !deleted
        invariant Abs() == AcceptUpTo(cfg, old(Abs()), accepts, fd)
      {
        if nets[fd] {
          Say(Accept(fd, accepts[fd]));
          if !accepts[fd] {
            nets := nets[fd := false];
          } else if fd != DATA_FD || !cfg.sendbackup {
            reading := reading[fd := true];
          }
        }
      }
      if nets == NO_NETS { return Finish; }
      connected := false;
      action := Pending;
    }

    function Rank(): nat
      reads this
    {
      match state
      case StateRepWait => 4
      case StateProcessRep => 3
      case StateAckWait => 2
      case StateSendRep => 1
    }

    /** Where the machine is between two states. */
    ghost predicate Going(s0: Service, s1: Service, i: Input)
      reads this, reply, reply.buf
      requires Valid() && Possible(s0, i)
    {
      match state
      case StateRepWait => Abs() == s1 && Possible(s1, i)
      case StateAckWait => Abs() == s1
      case StateProcessRep => i.ReplyEnd? && Abs() == Collected(cfg, s1, i.error, i.failure)
      case StateSendRep => ServiceProtocol.Say(Abs(), SendRep(rep)) == Handle(cfg, s0, i)
    }

    /** What is left to do when a state says so. */
    ghost function Left(action: Action): Service
      reads this, reply, reply.buf
      requires Valid()
    {
      match action
      case SendNakAction => ServiceProtocol.Say(Abs(), SendNak)
      case Finish => Abs().(phase := Gone)
      case _ => Abs()
    }

    ghost predicate ForMachine(s: Service, i: Input) {
      && |s.scan.last| == INFO_END_LEN && Possible(s, i)
      && (i.Received? || i.ReplyTimeout? || i.ReplyBroken? || i.ReplyData? || i.ReplyEnd? || i == AckTimeout)
    }

    /** One round: the function of the present state. */
    method Turn(i: Input, ghost s0: Service) returns (action: Action)
      requires ForMachine(s0, i) && Valid() && connected && !deleted && Going(s0, Hear(s0, i), i)
      modifies this, reply, reply.buf
      ensures reply == old(reply) && (reply.buf == old(reply.buf) || fresh(reply.buf))
      ensures Valid() && !deleted
      ensures action == Continue ==> connected && Going(s0, Hear(s0, i), i) && Rank() < old(Rank())
      ensures action != Continue ==> Left(action) == Handle(cfg, s0, i)
      ensures action != Continue && connected ==> state == StateRepWait || state == StateAckWait
    {
      hide OnReplyData, Collected, Processed, AcceptAll, Roomy;
      match state
      case StateRepWait => action := SRepWait(i);
      case StateProcessRep => action := SProcessRep(i.ids);
      case StateSendRep => action := SSendRep();
      case StateAckWait => action := SAckWait(i);
    }

    /** The loop over states, entered for a packet, a timeout, or something on the reply pipe. */
    method StateMachine(i: Input)
      requires Valid() && ForMachine(Abs(), i) && connected && !deleted
      requires state == StateRepWait || state == StateAckWait
      modifies this, reply, reply.buf
      ensures reply == old(reply) && (reply.buf == old(reply.buf) || fresh(reply.buf))
      ensures Valid() && (connected && !deleted ==> state == StateRepWait || state == StateAckWait)
      ensures Abs() == Handle(cfg, old(Abs()), i)
    {
      ghost var s0 := Abs();
      log := log + [In(i)];
      assert Abs() == Hear(s0, i) && Going(s0, Hear(s0, i), i);
      hide Going, Handle, Possible, Hear, Left, Rank, Abs;
      var action := Continue;
      while action == Continue
        invariant reply == old(reply) && (reply.buf == old(reply.buf) || fresh(reply.buf))
        invariant Valid() && !deleted
        invariant action == Continue ==> connected && Going(s0, Hear(s0, i), i)
        invariant action != Continue ==> Left(action) == Handle(cfg, s0, i)
        invariant action != Continue && connected ==> state == StateRepWait || state == StateAckWait
        decreases if action == Continue then Rank() else 0
      {
        action := Turn(i, s0);
      }
      Conclude(action);
    }

    method Conclude(action: Action)
      requires Valid() && !deleted && action != Continue
      modifies this`log, this`deleted
      ensures Valid() && Abs() == old(Left(action))
    {
      if action == SendNakAction {
        Say(SendNak);
      } else if action == Finish {
        deleted := true;
      }
    }

    /** Data, or the end, of one of the service's data pipes. */
    method ProcessReadNetFd(i: Input)
      requires Valid() && Possible(Abs(), i) && (i.StreamData? || i.StreamEnd? || i.StreamBroken?)
      modifies this
      ensures Valid() && reply == old(reply)
      ensures Abs() == Handle(cfg, old(Abs()), i)
    {
      hide OnStreamData, OnStreamEnd;
      log := log + [In(i)];
      if i.StreamBroken? {
        Say(SendNak);
        deleted := true;
      } else if i.StreamEnd? {
        EndStream(i.fd);
      } else {
        PassOn(i.fd, i.data, i.written);
      }
    }

    method EndStream(fd: Fd)
      requires Valid()
      requires !deleted
      modifies this`reading, this`nets, this`deleted
      ensures Valid() && Abs() == OnStreamEnd(old(Abs()), fd)
    {
      reading := reading[fd := false];
      nets := nets[fd := false];
      deleted := nets == NO_NETS;
    }

    method PassOn(fd: Fd, data: seq<byte>, written: bool)
      requires Valid()
      modifies this`infoEndBuf, this`seenInfoEnd, this`reading, this`deleted, this`log
      ensures Valid() && Abs() == OnStreamData(cfg, old(Abs()), fd, data, written)
    {
      hide Next;
      if cfg.sendbackup && !seenInfoEnd && fd == MESG_FD {
        ScanForInfoEnd(data);
      }
      if written {
        Say(Forward(fd, data));
      } else {
        Say(SendNak);
        deleted := true;
      }
    }

    method ScanForInfoEnd(data: seq<byte>)
      requires Valid() && !seenInfoEnd
      modifies this`infoEndBuf, this`seenInfoEnd, this`reading
      ensures Valid() && Scan(seenInfoEnd, infoEndBuf) == Next(old(Scan(seenInfoEnd, infoEndBuf)), data)
      ensures reading == if seenInfoEnd then old(reading)[DATA_FD := true] else old(reading)
    {
      hide Occurs, CString;
      var combined := infoEndBuf + data;
      var found := Search(CString(combined));
      seenInfoEnd := found;
      infoEndBuf := combined[|data|..];
      if seenInfoEnd {
        reading := reading[DATA_FD := true];
      }
    }
  }

  /** strstr for the text that ends the information. */
  method Search(s: seq<byte>) returns (found: bool)
    ensures found <==> Occurs(s)
  {
    found := false;
    var i := 0;
    while i + INFO_END_LEN <= |s|
      invariant i <= |s| && forall k: nat | k < i :: !OccursAt(s, k)
    {
      if s[i..i + INFO_END_LEN] == INFO_END {
        assert OccursAt(s, i);
        return true;
      }
      i := i + 1;
    }
  }
}
