/** What becomes of one request in a run of an HTTP session: the response that answers it. */
module HttpAnswers {
  import opened Basics
  import opened HttpOutput
  import opened HttpRequest
  import opened HttpSession

  /** The only task of the queue is response id, with this status and this end of the connection. */
  predicate Queued(s: State, id: nat, code: int, close: bool) {
    |s.tasks| == 1 && s.tasks[0].id == id && s.tasks[0].code == code && s.tasks[0].close == close
  }

  /** A response that can be prepared is queued and started with the status and bytes of its answer. */
  lemma AnswerStarts(s: State, request: Request, close: bool, code: int, bytes: Bytes)
    requires Ready(s) && Answers(s.site, request, code, bytes) && !s.site.raises(code)
    ensures var s' := Handle(s, request, close);
            Queued(s', |s.bodies|, code, close) && s'.bodies == s.bodies + [bytes] && s'.writes == 1 && !s'.failed
  {
    match Decide(s.site, request)
    case Answer(c, data) => PostStarts(s, c, data, close);
    case Caught => PostStarts(s, INTERNAL, InternalText(), close);
    case Escaped =>
  }

  /** The request is answered with this status and these bytes; 500 for an exception. */
  predicate Answers(site: Site, request: Request, code: int, bytes: Bytes) {
    match Decide(site, request)
    case Answer(c, data) => code == c && bytes == (match data case None => [] case Some(b) => b)
    case Caught => code == 500 && bytes == Text("An internal error has occurred.")
    case Escaped => false
  }

  /** The status and the bytes that a handler fills in are those of the answer; 500 if it throws. */
  lemma HandlerAnswers(site: Site, request: Request)
    requires Handler(site, request).Some?
    ensures match request.act
            case Produces(code, None) => Answers(site, request, code, [])
            case Produces(code, Some(data)) => Answers(site, request, code, data)
            case Throws => Answers(site, request, 500, Text("An internal error has occurred."))
            case ThrowsOther => forall code, bytes :: !Answers(site, request, code, bytes)
  {
    HandlerDecides(site, request);
  }

  lemma QueuedStep(s: State, e: Event, id: nat, code: int, close: bool)
    requires Inv(s) && Enabled(s, e) && Queued(s, id, code, close)
    ensures Apply(s, e).bodies == s.bodies
    ensures if e.Written? then Apply(s, e).finished == s.finished + 1 && (Apply(s, e).over <==> close)
            else Apply(s, e).finished == s.finished && Queued(Apply(s, e), id, code, close)
  {
  }

  lemma BodiesStep(s: State, e: Event)
    requires Inv(s) && Enabled(s, e)
    ensures s.bodies <= Apply(s, e).bodies
  {
  }

  lemma {:induction false} BodiesKept(site: Site, pipelineLimit: nat, chunk: nat, states: seq<State>, events: seq<Event>, i: nat, j: nat)
    requires chunk > 0 && IsRun(site, pipelineLimit, chunk, states, events) && i <= j < |states|
    ensures states[i].bodies <= states[j].bodies && states[i].finished <= states[j].finished
    decreases j
  {
    if i < j {
      BodiesKept(site, pipelineLimit, chunk, states, events, i, j - 1);
      RunBodies(site, pipelineLimit, chunk, states, events, j - 1);
      RunFinishes(site, pipelineLimit, chunk, states, events, j - 1);
    }
  }

  lemma RunBodies(site: Site, pipelineLimit: nat, chunk: nat, states: seq<State>, events: seq<Event>, n: nat)
    requires chunk > 0 && IsRun(site, pipelineLimit, chunk, states, events) && n < |events|
    ensures states[n].bodies <= states[n + 1].bodies
  {
    RunInv(site, pipelineLimit, chunk, states, events, n);
    assert IsStep(states, events, n);
    BodiesStep(states[n], events[n]);
  }

  lemma FinishedStep(s: State, e: Event)
    requires Enabled(s, e)
    ensures s.finished <= Apply(s, e).finished
  {
    if e.GotRequest? {
      HandleFinishes(TookRead(s), e.request, e.close);
    }
  }

  lemma HandleFinishes(s: State, request: Request, close: bool)
    ensures Handle(s, request, close).finished == s.finished
  {
  }

  /** The read of event n starts the answer. */
  lemma RequestStarts(site: Site, pipelineLimit: nat, chunk: nat, states: seq<State>, events: seq<Event>, n: nat, code: int, bytes: Bytes)
    requires chunk > 0 && IsRun(site, pipelineLimit, chunk, states, events) && n < |events| && events[n].GotRequest?
    requires Answers(site, events[n].request, code, bytes) && !site.raises(code)
    ensures Queued(states[n + 1], |states[n].bodies|, code, events[n].close)
    ensures states[n + 1].bodies == states[n].bodies + [bytes] && states[n + 1].finished == |states[n].bodies|
  {
    RunInv(site, pipelineLimit, chunk, states, events, n);
    assert IsStep(states, events, n);
    ReadyAt(states[n]);
    AnswerStarts(TookRead(states[n]), events[n].request, events[n].close, code, bytes);
    HandleFinishes(TookRead(states[n]), events[n].request, events[n].close);
  }

  /** Until its write is finished, the answer of a request is the one task of the queue. */
  lemma {:induction false} AnswerStays(site: Site, pipelineLimit: nat, chunk: nat, states: seq<State>, events: seq<Event>,
                                        n: nat, m: nat, code: int, bytes: Bytes)
    requires chunk > 0 && IsRun(site, pipelineLimit, chunk, states, events) && n < m < |states| && events[n].GotRequest?
    requires Answers(site, events[n].request, code, bytes) && !site.raises(code)
    requires states[m].finished <= |states[n].bodies|
    ensures Queued(states[m], |states[n].bodies|, code, events[n].close) && states[m].finished == |states[n].bodies|
    decreases m
  {
    if m == n + 1 {
      RequestStarts(site, pipelineLimit, chunk, states, events, n, code, bytes);
    } else {
      RunFinishes(site, pipelineLimit, chunk, states, events, m - 1);
      AnswerStays(site, pipelineLimit, chunk, states, events, n, m - 1, code, bytes);
      RunQueued(site, pipelineLimit, chunk, states, events, m - 1, |states[n].bodies|, code, events[n].close);
    }
  }

  lemma RunFinishes(site: Site, pipelineLimit: nat, chunk: nat, states: seq<State>, events: seq<Event>, n: nat)
    requires IsRun(site, pipelineLimit, chunk, states, events) && n < |events|
    ensures states[n].finished <= states[n + 1].finished
  {
    assert IsStep(states, events, n);
    FinishedStep(states[n], events[n]);
  }

  lemma RunQueued(site: Site, pipelineLimit: nat, chunk: nat, states: seq<State>, events: seq<Event>, n: nat, id: nat, code: int, close: bool)
    requires chunk > 0 && IsRun(site, pipelineLimit, chunk, states, events) && n < |events| && Queued(states[n], id, code, close)
    ensures if events[n].Written? then states[n + 1].finished == states[n].finished + 1 && (states[n + 1].over <==> close)
            else states[n + 1].finished == states[n].finished && Queued(states[n + 1], id, code, close)
  {
    RunInv(site, pipelineLimit, chunk, states, events, n);
    assert IsStep(states, events, n);
    QueuedStep(states[n], events[n], id, code, close);
  }

  /**
    A request whose answer can be prepared is sent exactly that answer: once its write is finished,
    the body on the wire is the bytes of the answer, and the connection ends with it exactly when
    the request says so; until then it is queued with its status.
  */
  lemma AnswerIsSent(site: Site, pipelineLimit: nat, chunk: nat, states: seq<State>, events: seq<Event>, n: nat, m: nat, code: int, bytes: Bytes)
    requires chunk > 0 && IsRun(site, pipelineLimit, chunk, states, events) && n < m < |states| && events[n].GotRequest?
    requires Answers(site, events[n].request, code, bytes) && !site.raises(code)
    ensures var id := |states[n].bodies|;
            if states[m].finished > id then BodyOf(states[m].wire, id) == bytes
            else Queued(states[m], id, code, events[n].close) &&
                 (m < |events| && events[m].Written? ==> states[m + 1].finished == id + 1 && (states[m + 1].over <==> events[n].close))
  {
    var id := |states[n].bodies|;
    RequestStarts(site, pipelineLimit, chunk, states, events, n, code, bytes);
    if states[m].finished > id {
      BodiesKept(site, pipelineLimit, chunk, states, events, n + 1, m);
      SessionIsOrderly(site, pipelineLimit, chunk, states, events, m);
      assert states[m].bodies[id] == states[n + 1].bodies[id] == bytes;
    } else {
      AnswerStays(site, pipelineLimit, chunk, states, events, n, m, code, bytes);
      if m < |events| {
        RunQueued(site, pipelineLimit, chunk, states, events, m, id, code, events[n].close);
      }
    }
  }

  /** A read that ends without a request leaves no operation and no response; the socket is shut when the peer closed or asked for an upgrade. */
  lemma ReadEnds(site: Site, pipelineLimit: nat, chunk: nat, states: seq<State>, events: seq<Event>, n: nat)
    requires chunk > 0 && IsRun(site, pipelineLimit, chunk, states, events) && n < |events| && events[n].ReadStopped?
    ensures var s := states[n + 1];
            s.pendingReads == s.writes == 0 && s.tasks == [] && s.bodies == states[n].bodies && !s.failed && (s.over <==> events[n].shut)
  {
    RunInv(site, pipelineLimit, chunk, states, events, n);
    assert IsStep(states, events, n);
  }

  /** A write in progress either needs the next portion or is the last one, and a read can bring any request. */
  lemma OperationsGoOn(site: Site, pipelineLimit: nat, chunk: nat, states: seq<State>, events: seq<Event>, n: nat, request: Request, close: bool)
    requires chunk > 0 && IsRun(site, pipelineLimit, chunk, states, events) && n < |states|
    ensures states[n].writes > 0 ==> (Enabled(states[n], NeedBuffer) <==> !Enabled(states[n], Written))
    ensures states[n].pendingReads > 0 ==> Enabled(states[n], GotRequest(request, close))
  {
    RunInv(site, pipelineLimit, chunk, states, events, n);
  }
}
