/** The services that amandad runs, and what it does with a request. */
module ServiceQueue {
  import opened Text

  /** "SERVICE" */
  const SERVICE: seq<byte> := [83, 69, 82, 86, 73, 67, 69]

  datatype Request = Request(service: seq<byte>, arguments: seq<byte>)

  function Parse(body: seq<byte>): Option<Request> {
    var first := Strtok(body, {SPACE});
    if first == NoToken || first.text != SERVICE then None
    else
      var service := Strtok(first.rest, {SPACE, NEWLINE});
      if service == NoToken || service.rest == [] then None
      else Some(Request(service.text, service.rest))
  }

  /** A request is understood as it was meant, up to the last byte of its arguments. */
  lemma RequestUnderstood(r: Request, d: byte)
    requires Word(r.service) && r.arguments != [] && (d == SPACE || d == NEWLINE)
    ensures Parse(SERVICE + [SPACE] + (r.service + [d] + r.arguments)) == Some(r)
  {
    hide Strtok;
    StrtokFirst(SERVICE, SPACE, r.service + [d] + r.arguments, {SPACE});
    StrtokFirst(r.service, d, r.arguments, {SPACE, NEWLINE});
  }

  /** A text that names a service and gives it arguments. */
  predicate Requests(body: seq<byte>, r: Request, front: seq<byte>, gap: seq<byte>, d: byte) {
    && body == front + SERVICE + ([SPACE] + (gap + r.service + ([d] + r.arguments)))
    && Among(front, {SPACE}) && Among(gap, {SPACE, NEWLINE}) && Word(r.service) && d in {SPACE, NEWLINE} && r.arguments != []
  }

  ghost predicate IsRequest(body: seq<byte>, r: Request) {
    exists front, gap, d :: Requests(body, r, front, gap, d)
  }

  lemma RequestFound(body: seq<byte>, r: Request)
    requires Parse(body) == Some(r)
    ensures IsRequest(body, r)
  {
    var first := Strtok(body, {SPACE});
    hide Strtok;
    assert first.rest != [] by { NoTokenIn({SPACE, NEWLINE}); }
    var front, space := TokenParts(body, {SPACE});
    var gap, d := TokenParts(first.rest, {SPACE, NEWLINE});
    assert Requests(body, r, front, gap, d);
  }

  lemma NoTokenIn(delims: set<byte>)
    ensures Strtok([], delims) == NoToken
  {}

  lemma RequestParsed(body: seq<byte>, r: Request, front: seq<byte>, gap: seq<byte>, d: byte)
    requires Requests(body, r, front, gap, d)
    ensures Parse(body) == Some(r)
  {
    var rest := gap + r.service + ([d] + r.arguments);
    hide Strtok;
    assert front + SERVICE + ([SPACE] + rest) == front + (SERVICE + [SPACE] + rest);
    SkipOver(front, {SPACE}, SERVICE + [SPACE] + rest);
    StrtokFirst(SERVICE, SPACE, rest, {SPACE});
    assert rest == gap + (r.service + [d] + r.arguments);
    SkipOver(gap, {SPACE, NEWLINE}, r.service + [d] + r.arguments);
    StrtokFirst(r.service, d, r.arguments, {SPACE, NEWLINE});
  }

  /** A text is understood as a request exactly if it is the word SERVICE, a name and arguments, with
      blanks before and between. */
  lemma ParseExactly(body: seq<byte>, r: Request)
    ensures Parse(body) == Some(r) <==> IsRequest(body, r)
  {
    if Parse(body) == Some(r) {
      RequestFound(body, r);
    }
    if IsRequest(body, r) {
      var front, gap, d :| Requests(body, r, front, gap, d);
      RequestParsed(body, r, front, gap, d);
    }
  }

  datatype Answer =
    | InvalidRequest
    | InvalidService
    | NotExecutable
    | AlreadyRunning
    | Started
    | NotStarted

  /** What the system says of a service program: whether it may be run, and takes its arguments. */
  datatype Program = Program(executable: bool, takesArguments: bool)

  predicate Distinct(queue: seq<Request>) {
    forall i, j | 0 <= i < j < |queue| :: queue[i] != queue[j]
  }

  function AnswerTo(allowed: set<seq<byte>>, queue: seq<Request>, body: seq<byte>, program: Program): Answer {
    match Parse(body)
    case None => InvalidRequest
    case Some(r) =>
      if r.service !in allowed then InvalidService
      else if !program.executable then NotExecutable
      else if r in queue then AlreadyRunning
      else if program.takesArguments then Started
      else NotStarted
  }

  class Server {
    const allowed: set<seq<byte>>
    var queue: seq<Request>

    constructor (allowed: set<seq<byte>>)
      ensures this.allowed == allowed && queue == []
    {
      this.allowed, queue := allowed, [];
    }

    /** A request that repeats one whose service still runs is acknowledged and starts nothing. */
    method ProtocolAccept(body: seq<byte>, program: Program) returns (answer: Answer)
      requires Distinct(queue)
      modifies this
      ensures Distinct(queue)
      ensures answer == AnswerTo(allowed, old(queue), body, program)
      ensures answer == InvalidRequest <==> Parse(body) == None
      ensures Parse(body).Some? ==> var r := Parse(body).value;
        && (answer == InvalidService <==> r.service !in allowed)
        && (answer == NotExecutable <==> r.service in allowed && !program.executable)
        && (answer == AlreadyRunning <==> r.service in allowed && program.executable && r in old(queue))
        && (answer == Started <==> r.service in allowed && program.executable && r !in old(queue) && program.takesArguments)
      ensures queue == if answer == Started then old(queue) + [Parse(body).value] else old(queue)
    {
      var parsed := Parse(body);
      if parsed == None { return InvalidRequest; }
      var r := parsed.value;
      if r.service !in allowed { return InvalidService; }
      if !program.executable { return NotExecutable; }
      for i := 0 to |queue|
        invariant r !in queue[..i]
      {
        if queue[i] == r { return AlreadyRunning; }
      }
      assert queue[..|queue|] == queue;
      queue := queue + [r];
      if !program.takesArguments {
        queue := queue[..|queue| - 1];
        return NotStarted;
      }
      answer := Started;
    }

    /** A service that is done. */
    method ServiceDelete(i: nat)
      requires Distinct(queue) && i < |queue|
      modifies this
      ensures Distinct(queue) && queue == old(queue)[..i] + old(queue)[i + 1..]
      ensures old(queue)[i] !in queue
    {
      queue := queue[..i] + queue[i + 1..];
    }
  }

  // ---------- over all requests ----------

  datatype Event = Arrives(body: seq<byte>, program: Program) | Ends(index: nat)

  function Step(allowed: set<seq<byte>>, queue: seq<Request>, e: Event): seq<Request> {
    match e
    case Arrives(body, program) =>
      if AnswerTo(allowed, queue, body, program) == Started then queue + [Parse(body).value] else queue
    case Ends(i) => if i < |queue| then queue[..i] + queue[i + 1..] else queue
  }

  function Steps(allowed: set<seq<byte>>, events: seq<Event>): seq<Request> {
    if events == [] then [] else Step(allowed, Steps(allowed, events[..|events| - 1]), events[|events| - 1])
  }

  predicate AllowedOnly(allowed: set<seq<byte>>, queue: seq<Request>) {
    forall i | 0 <= i < |queue| :: queue[i].service in allowed
  }

  lemma StepKeeps(allowed: set<seq<byte>>, queue: seq<Request>, e: Event)
    requires Distinct(queue) && AllowedOnly(allowed, queue)
    ensures Distinct(Step(allowed, queue, e)) && AllowedOnly(allowed, Step(allowed, queue, e))
  {
    hide Parse;
  }

  /** Whatever requests arrive and services end, no two services run with the same program and
      arguments, and only allowed ones run. */
  lemma {:induction false} NoTwoAlike(allowed: set<seq<byte>>, events: seq<Event>)
    ensures Distinct(Steps(allowed, events)) && AllowedOnly(allowed, Steps(allowed, events))
  {
    if events != [] {
      hide Step, Distinct, AllowedOnly;
      NoTwoAlike(allowed, events[..|events| - 1]);
      StepKeeps(allowed, Steps(allowed, events[..|events| - 1]), events[|events| - 1]);
    } else {
      assert Steps(allowed, []) == [];
    }
  }

  /** What anything that arrives is answered, after any events: no request is refused that is one, that is
      allowed, and whose program can be run; it is acknowledged exactly if it is running already. */
  lemma AnsweredExactly(allowed: set<seq<byte>>, events: seq<Event>, body: seq<byte>, program: Program)
    ensures var queue := Steps(allowed, events);
      var answer := AnswerTo(allowed, queue, body, program);
      && (answer == InvalidRequest <==> forall r :: !IsRequest(body, r))
      && (forall r | IsRequest(body, r) ::
            && (answer == InvalidService <==> r.service !in allowed)
            && (answer == NotExecutable <==> r.service in allowed && !program.executable)
            && (answer == AlreadyRunning <==> r.service in allowed && program.executable && r in queue)
            && (answer == Started ==> r !in queue && Step(allowed, queue, Arrives(body, program)) == queue + [r])
            && (answer != Started ==> Step(allowed, queue, Arrives(body, program)) == queue))
  {
    forall r ensures Parse(body) == Some(r) <==> IsRequest(body, r) {
      ParseExactly(body, r);
    }
    if Parse(body).Some? {
      assert IsRequest(body, Parse(body).value);
    }
    hide Parse, IsRequest, Steps;
  }

  /** A request that was started is acknowledged when it comes again, and does not start a second time. */
  lemma RepeatAcknowledged(allowed: set<seq<byte>>, events: seq<Event>, body: seq<byte>, program: Program, later: Program)
    requires AnswerTo(allowed, Steps(allowed, events), body, program) == Started && later.executable
    ensures var events' := events + [Arrives(body, program)];
      && AnswerTo(allowed, Steps(allowed, events'), body, later) == AlreadyRunning
      && Steps(allowed, events' + [Arrives(body, later)]) == Steps(allowed, events')
  {
    hide Parse;
    var events' := events + [Arrives(body, program)];
    assert events'[..|events|] == events;
    var more := events' + [Arrives(body, later)];
    assert more[..|events'|] == events';
    var queue := Steps(allowed, events);
    assert Steps(allowed, events') == queue + [Parse(body).value];
    assert (queue + [Parse(body).value])[|queue|] == Parse(body).value;
  }
}
