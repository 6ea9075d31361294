/**
  One HTTP connection: a read, the handling of the request, a queue of responses, and chunked
  writes, driven by the completions of its asynchronous operations in any order they can come.
*/
module HttpSession {
  import opened Basics
  import opened HttpOutput
  import opened HttpRequest

  /** A queued response: its number, status code and pack, and whether the connection ends after it. */
  datatype Response = Response(id: nat, code: int, pack: Pack, close: bool)

  /** Body bytes that went to the socket, and for which response. */
  datatype Piece = Piece(id: nat, data: Bytes)

  /**
    `pendingReads` and `writes` are the asynchronous operations outstanding, `started` the responses
    whose first write was issued, `bodies` the response bodies in the order they were posted,
    `finished` how many writes ran to their end. `over` says that the connection was shut or a write
    failed, `failed` that a task threw or an exception left the handling of a
    request: then no operation is outstanding, and with the last of them the session itself goes.
  */
  datatype State = State(
    site: Site, limit: nat, chunk: nat, pendingReads: nat, writes: nat, tasks: seq<Response>,
    wire: seq<Piece>, started: seq<nat>, bodies: seq<Bytes>, finished: nat, over: bool, failed: bool)

  /** Completions: a request, a read that ends (with or without shutting the socket), a write that needs the next
      portion, a finished write, a failed write. */
  datatype Event = GotRequest(request: Request, close: bool) | ReadStopped(shut: bool) | NeedBuffer | Written | WriteFailed

  /** The task at the front runs: it prepares the response, which may throw, and issues a write of the current body. */
  function StartFront(s: State): State
    requires s.tasks != []
  {
    var r := s.tasks[0];
    if s.site.raises(r.code) then s.(failed := true)
    else s.(writes := s.writes + 1, wire := s.wire + [Piece(r.id, r.pack.body)], started := s.started + [r.id])
  }

  function BodyData(data: Option<Bytes>): Bytes {
    if data.None? then [] else data.value
  }

  /** `Queue::Post`. */
  function PostTask(s: State, code: int, data: Option<Bytes>, close: bool): State {
    var r := Response(|s.bodies|, code, SetData(NewPack(s.chunk), data), close);
    var queued := s.(tasks := s.tasks + [r], bodies := s.bodies + [BodyData(data)]);
    if |queued.tasks| == 1 then StartFront(queued) else queued
  }

  /** Posting runs the task at once when the queue was empty, and lets its exception out. */
  predicate PostThrows(s: State, code: int) {
    s.tasks == [] && s.site.raises(code)
  }

  function InternalText(): Option<Bytes> {
    Some(Text("An internal error has occurred."))
  }

  /** `HandleRequest`: an exception of the first posting ends in the catch block, which posts again. */
  function Handle(s: State, request: Request, close: bool): State {
    match Decide(s.site, request)
    case Answer(code, data) =>
      var one := PostTask(s, code, data, close);
      if PostThrows(s, code) then PostTask(one, INTERNAL, InternalText(), close) else one
    case Caught => PostTask(s, INTERNAL, InternalText(), close)
    case Escaped => s.(failed := true)
  }

  /** `Queue::Pop`, and the next read that the session issues if the queue was full. */
  function PopTask(s: State): State
    requires s.tasks != []
  {
    var popped := s.(tasks := s.tasks[1..]);
    if popped.tasks != [] && s.site.raises(popped.tasks[0].code) then StartFront(popped)
    else
      var next := if popped.tasks != [] then StartFront(popped) else popped;
      if |s.tasks| >= s.limit then next.(pendingReads := next.pendingReads + 1) else next
  }

  /** The read has completed. */
  function TookRead(s: State): State
    requires s.pendingReads > 0
  {
    State(s.site, s.limit, s.chunk, s.pendingReads - 1, s.writes, s.tasks, s.wire, s.started, s.bodies, s.finished, s.over, s.failed)
  }

  predicate Enabled(s: State, e: Event) {
    match e
    case GotRequest(_, _) => s.pendingReads > 0
    case ReadStopped(_) => s.pendingReads > 0
    case NeedBuffer => s.writes > 0 && s.tasks != [] && Valid(s.tasks[0].pack) && CanGoOn(s.tasks[0].pack)
    case Written => s.writes > 0 && s.tasks != [] && !s.tasks[0].pack.more
    case WriteFailed => s.writes > 0
  }

  function Apply(s: State, e: Event): State
    requires Enabled(s, e)
  {
    match e
    case GotRequest(request, close) => Handle(TookRead(s), request, close)
    case ReadStopped(shut) => s.(pendingReads := s.pendingReads - 1, over := s.over || shut)
    case NeedBuffer =>
      var r := s.tasks[0];
      var portion := Next(r.pack);
      s.(tasks := [Response(r.id, r.code, portion, r.close)] + s.tasks[1..], wire := s.wire + [Piece(r.id, portion.body)])
    case Written =>
      var done := s.(writes := s.writes - 1, finished := s.finished + 1);
      if s.tasks[0].close then done.(over := true) else PopTask(done)
    case WriteFailed => s.(writes := s.writes - 1, over := true)
  }

  /** `Run`: the first read. The limit is at least 1 by construction. */
  function InitState(site: Site, pipelineLimit: nat, chunk: nat): State {
    State(site, if pipelineLimit > 1 then pipelineLimit else 1, chunk, 1, 0, [], [], [], [], 0, false, false)
  }

  // ---------------------------------------------------------------- the object

  class Session {
    const site: Site
    const limit: nat
    const chunk: nat
    var pendingReads: nat
    var writes: nat
    var tasks: seq<Response>
    var wire: seq<Piece>
    var started: seq<nat>
    var bodies: seq<Bytes>
    var finished: nat
    var over: bool
    var failed: bool

    constructor (site: Site, pipelineLimit: nat, chunk: nat)
      ensures Now() == InitState(site, pipelineLimit, chunk)
    {
      this.site := site;
      limit := if pipelineLimit > 1 then pipelineLimit else 1;
      this.chunk := chunk;
      pendingReads, writes, tasks, wire, started, bodies := 1, 0, [], [], [], [];
      finished, over, failed := 0, false, false;
    }

    function Now(): State
      reads this
    {
      State(site, limit, chunk, pendingReads, writes, tasks, wire, started, bodies, finished, over, failed)
    }

    method RunFront() returns (threw: bool)
      requires tasks != []
      modifies this
      ensures Now() == StartFront(old(Now())) && threw == site.raises(old(tasks)[0].code)
    {
      if site.raises(tasks[0].code) {
        failed := true;
        return true;
      }
      started := started + [tasks[0].id];
      wire := wire + [Piece(tasks[0].id, tasks[0].pack.body)];
      writes := writes + 1;
      return false;
    }

    method Enqueue(code: int, data: Option<Bytes>, close: bool) returns (threw: bool)
      modifies this
      ensures Now() == PostTask(old(Now()), code, data, close) && threw == PostThrows(old(Now()), code)
    {
      var pack := SetData(NewPack(chunk), data);
      tasks := tasks + [Response(|bodies|, code, pack, close)];
      bodies := bodies + [BodyData(data)];
      threw := false;
      if |tasks| == 1 {
        threw := RunFront();
      }
    }

    /** The try block posts at most one response; what it throws, a posted task included, makes the catch block post another. */
    method HandleRequest(request: Request, close: bool)
      modifies this
      ensures Now() == Handle(old(Now()), request, close)
    {
      var decision, _ := Examine(site, request);
      var caught := false;
      match decision {
        case Answer(code, data) => caught := Enqueue(code, data, close);
        case Caught => caught := true;
        case Escaped => failed := true;
      }
      if caught {
        var _ := Enqueue(INTERNAL, InternalText(), close);
      }
    }

    method OnRead(e: Event)
      requires e.GotRequest? || e.ReadStopped?
      requires Enabled(Now(), e)
      modifies this
      ensures Now() == Apply(old(Now()), e)
    {
      pendingReads := pendingReads - 1;
      if e.ReadStopped? {
        over := over || e.shut;
        return;
      }
      HandleRequest(e.request, e.close);
    }

    method OnWrite(e: Event)
      requires e.NeedBuffer? || e.Written? || e.WriteFailed?
      requires Enabled(Now(), e)
      modifies this
      ensures Now() == Apply(old(Now()), e)
    {
      if e.NeedBuffer? {
        var r := tasks[0];
        var portion := Next(r.pack);
        tasks := [Response(r.id, r.code, portion, r.close)] + tasks[1..];
        wire := wire + [Piece(r.id, portion.body)];
        return;
      }
      writes := writes - 1;
      if e.WriteFailed? {
        over := true;
        return;
      }
      finished := finished + 1;
      if tasks[0].close {
        over := true;
        return;
      }
      var wasFull := |tasks| >= limit;
      tasks := tasks[1..];
      if tasks != [] {
        var threw := RunFront();
        if threw {
          return;
        }
      }
      if wasFull {
        pendingReads := pendingReads + 1;
      }
    }
  }

  // ---------------------------------------------------------------- invariant

  /** The bytes of response i on the wire, in order. */
  function BodyOf(wire: seq<Piece>, i: nat): Bytes {
    if wire == [] then []
    else BodyOf(wire[..|wire| - 1], i) + (if wire[|wire| - 1].id == i then wire[|wire| - 1].data else [])
  }

  lemma BodyOfAppend(wire: seq<Piece>, p: Piece, i: nat)
    ensures BodyOf(wire + [p], i) == BodyOf(wire, i) + (if p.id == i then p.data else [])
  {
    assert (wire + [p])[..|wire + [p]| - 1] == wire;
  }

  lemma {:induction false} BodyOfUnknown(wire: seq<Piece>, i: nat)
    requires forall j :: 0 <= j < |wire| ==> wire[j].id < i
    ensures BodyOf(wire, i) == []
  {
    if wire != [] {
      BodyOfUnknown(wire[..|wire| - 1], i);
    }
  }

  /** Pieces of one response are together, and responses are in the order they were posted. */
  ghost predicate Ordered(wire: seq<Piece>, count: nat) {
    (forall j, k :: 0 <= j < k < |wire| ==> wire[j].id <= wire[k].id) && (forall j :: 0 <= j < |wire| ==> wire[j].id < count)
  }

  function FirstIds(n: nat): seq<nat> {
    seq(n, i => i)
  }

  /** Nothing is outstanding any more, and nothing of what is queued was started. */
  ghost predicate Abandoned(s: State) {
    s.writes == 0 && s.pendingReads == 0 && !s.over && |s.bodies| == s.finished + |s.tasks| && s.started == FirstIds(s.finished) &&
    (s.limit > 1 ==> s.finished == 0)
  }

  ghost predicate Running(s: State) {
    s.pendingReads + |s.tasks| <= 1 && s.finished <= |s.bodies| <= s.finished + 1 && s.started == FirstIds(|s.bodies|) &&
    (if s.over then s.writes == 0 && s.pendingReads == 0 else s.writes == |s.tasks| && |s.bodies| == s.finished + |s.tasks|) &&
    (s.limit > 1 ==> s.pendingReads + |s.bodies| <= 1)
  }

  ghost predicate Counts(s: State) {
    s.limit >= 1 && s.chunk > 0 && if s.failed then Abandoned(s) else Running(s)
  }

  ghost predicate Front(s: State) {
    s.writes > 0 ==>
      s.tasks != [] && s.finished < |s.bodies| && s.tasks[0].id == s.finished && Valid(s.tasks[0].pack) &&
      s.tasks[0].pack.chunk == s.chunk && BodyOf(s.wire, s.finished) + Remaining(s.tasks[0].pack) == s.bodies[s.finished]
  }

  ghost predicate Bodies(s: State) {
    s.finished <= |s.bodies| && Ordered(s.wire, |s.bodies|) &&
    (forall i :: 0 <= i < s.finished ==> BodyOf(s.wire, i) == s.bodies[i]) &&
    (s.finished < |s.bodies| ==> BodyOf(s.wire, s.finished) <= s.bodies[s.finished])
  }

  ghost predicate Inv(s: State) {
    Counts(s) && Front(s) && Bodies(s)
  }

  /** What a request finds: an open connection with an empty queue. */
  ghost predicate Ready(s: State) {
    Inv(s) && !s.failed && !s.over && s.tasks == [] && s.writes == 0 && s.pendingReads == 0 && |s.bodies| == s.finished &&
    (s.limit > 1 ==> s.bodies == [])
  }

  lemma ReadyAt(s: State)
    requires Inv(s) && s.pendingReads > 0
    ensures Ready(TookRead(s))
  {
  }

  lemma WireStep(s: State, p: Piece, bodies: seq<Bytes>)
    requires Ordered(s.wire, |s.bodies|) && |s.bodies| <= |bodies| && p.id == |bodies| - 1
    ensures Ordered(s.wire + [p], |bodies|)
  {
  }

  /** The first response of a request whose task throws stays queued, and nothing is outstanding. */
  lemma PostFails(s: State, code: int, data: Option<Bytes>, close: bool)
    requires Ready(s) && s.site.raises(code)
    ensures var s' := PostTask(s, code, data, close);
            Inv(s') && s'.failed && |s'.tasks| == 1 && s'.bodies == s.bodies + [BodyData(data)]
  {
    BodyOfUnknown(s.wire, |s.bodies|);
  }

  /** Any other is started. */
  lemma PostStarts(s: State, code: int, data: Option<Bytes>, close: bool)
    requires Ready(s) && !s.site.raises(code)
    ensures var s' := PostTask(s, code, data, close);
            Inv(s') && !s'.failed && |s'.tasks| == 1 && s'.bodies == s.bodies + [BodyData(data)]
  {
    var n, pack, s' := |s.bodies|, SetData(NewPack(s.chunk), data), PostTask(s, code, data, close);
    assert s'.wire == s.wire + [Piece(n, pack.body)];
    assert s'.started == FirstIds(n) + [n] == FirstIds(n + 1);
    FirstPiece(s, pack, BodyData(data));
    assert pack.body + Remaining(pack) == BodyData(data);
  }

  lemma FirstPiece(s: State, pack: Pack, body: Bytes)
    requires Bodies(s) && |s.bodies| == s.finished && pack.body <= body
    ensures var n, wire := |s.bodies|, s.wire + [Piece(|s.bodies|, pack.body)];
            Ordered(wire, n + 1) && BodyOf(wire, n) == pack.body && forall i :: 0 <= i < n ==> BodyOf(wire, i) == s.bodies[i]
  {
    var n := |s.bodies|;
    BodyOfUnknown(s.wire, n);
    forall i | 0 <= i <= n ensures BodyOf(s.wire + [Piece(n, pack.body)], i) == BodyOf(s.wire, i) + if i == n then pack.body else [] {
      BodyOfAppend(s.wire, Piece(n, pack.body), i);
    }
  }

  /** A second response, after the first threw, is queued behind it and not started. */
  lemma SecondStep(s: State, data: Option<Bytes>, close: bool)
    requires Inv(s) && s.failed && |s.tasks| == 1
    ensures var s' := PostTask(s, INTERNAL, data, close);
            Inv(s') && s'.failed && |s'.tasks| == 2 && s'.bodies == s.bodies + [BodyData(data)] && s'.started == s.started && s'.wire == s.wire
  {
  }

  lemma RequestStep(s: State, request: Request, close: bool)
    requires Ready(s)
    ensures Inv(Handle(s, request, close)) && Handle(s, request, close).failed == Breaks(s.site, request)
    ensures |Handle(s, request, close).bodies| == |s.bodies| + Posts(s.site, request)
  {
    match Decide(s.site, request)
    case Answer(code, data) =>
      if s.site.raises(code) {
        PostFails(s, code, data, close);
        SecondStep(PostTask(s, code, data, close), InternalText(), close);
      } else {
        PostStarts(s, code, data, close);
      }
    case Caught =>
      if s.site.raises(INTERNAL) {
        PostFails(s, INTERNAL, InternalText(), close);
      } else {
        PostStarts(s, INTERNAL, InternalText(), close);
      }
    case Escaped =>
  }

  /** A request after which nothing is outstanding: its first task throws, or an exception is not caught. */
  predicate Breaks(site: Site, request: Request) {
    match Decide(site, request)
    case Answer(code, _) => site.raises(code)
    case Caught => site.raises(INTERNAL)
    case Escaped => true
  }

  /** How many responses a request queues. */
  function Posts(site: Site, request: Request): nat {
    match Decide(site, request)
    case Answer(code, _) => if site.raises(code) then 2 else 1
    case Caught => 1
    case Escaped => 0
  }

  lemma PortionStep(s: State)
    requires Inv(s) && Enabled(s, NeedBuffer)
    ensures Inv(Apply(s, NeedBuffer))
  {
    var r, n := s.tasks[0], s.finished;
    var p := Piece(r.id, Next(r.pack).body);
    NextTakes(r.pack);
    WireStep(s, p, s.bodies);
    forall i | 0 <= i <= n ensures BodyOf(s.wire + [p], i) == BodyOf(s.wire, i) + if i == n then p.data else [] {
      BodyOfAppend(s.wire, p, i);
    }
    var rest := Remaining(Next(r.pack));
    assert BodyOf(s.wire, n) + (p.data + rest) == (BodyOf(s.wire, n) + p.data) + rest;
  }

  lemma WrittenStep(s: State)
    requires Inv(s) && Enabled(s, Written)
    ensures Inv(Apply(s, Written)) && !Apply(s, Written).failed
  {
    assert BodyOf(s.wire, s.finished) + [] == BodyOf(s.wire, s.finished);
  }

  lemma ReadStep(s: State, request: Request, close: bool)
    requires Inv(s) && Enabled(s, GotRequest(request, close))
    ensures var s' := Apply(s, GotRequest(request, close));
            Inv(s') && s'.failed == Breaks(s.site, request) && |s'.bodies| == |s.bodies| + Posts(s.site, request)
  {
    ReadyAt(s);
    RequestStep(TookRead(s), request, close);
  }

  lemma EndStep(s: State, e: Event)
    requires Inv(s) && Enabled(s, e) && (e.ReadStopped? || e.WriteFailed?)
    ensures Inv(Apply(s, e)) && !Apply(s, e).failed
  {
  }

  lemma PostFixed(s: State, code: int, data: Option<Bytes>, close: bool)
    ensures var s' := PostTask(s, code, data, close); s'.site == s.site && s'.limit == s.limit && s'.pendingReads == s.pendingReads
  {
  }

  lemma HandleFixed(s: State, request: Request, close: bool)
    ensures var s' := Handle(s, request, close); s'.site == s.site && s'.limit == s.limit && s'.pendingReads == s.pendingReads
  {
    match Decide(s.site, request)
    case Answer(code, data) =>
      PostFixed(s, code, data, close);
      PostFixed(PostTask(s, code, data, close), INTERNAL, InternalText(), close);
    case Caught => PostFixed(s, INTERNAL, InternalText(), close);
    case Escaped =>
  }

  lemma SiteFixed(s: State, e: Event)
    requires Enabled(s, e)
    ensures Apply(s, e).site == s.site && Apply(s, e).limit == s.limit
    ensures !e.GotRequest? ==> Apply(s, e).bodies == s.bodies
  {
    if e.GotRequest? {
      HandleFixed(TookRead(s), e.request, e.close);
    }
  }

  /** Every completion keeps the invariant, and only a request can make it fail. */
  lemma InvStep(s: State, e: Event)
    requires Inv(s) && Enabled(s, e)
    ensures Inv(Apply(s, e)) && !s.failed
    ensures Apply(s, e).failed <==> e.GotRequest? && Breaks(s.site, e.request)
    ensures |Apply(s, e).bodies| == |s.bodies| + (if e.GotRequest? then Posts(s.site, e.request) else 0)
    ensures Apply(s, e).site == s.site && Apply(s, e).limit == s.limit
  {
    SiteFixed(s, e);
    match e
    case GotRequest(request, close) => ReadStep(s, request, close);
    case NeedBuffer => PortionStep(s);
    case Written => WrittenStep(s);
    case ReadStopped(_) => EndStep(s, e);
    case WriteFailed => EndStep(s, e);
  }

  // ---------------------------------------------------------------- runs

  ghost predicate IsRun(site: Site, pipelineLimit: nat, chunk: nat, states: seq<State>, events: seq<Event>) {
    |states| == |events| + 1 && states[0] == InitState(site, pipelineLimit, chunk) &&
    forall i :: 0 <= i < |events| ==> IsStep(states, events, i)
  }

  ghost predicate IsStep(states: seq<State>, events: seq<Event>, i: nat)
    requires i < |events| && i + 1 < |states|
  {
    Enabled(states[i], events[i]) && states[i + 1] == Apply(states[i], events[i])
  }

  lemma {:induction false} RunInv(site: Site, pipelineLimit: nat, chunk: nat, states: seq<State>, events: seq<Event>, n: nat)
    requires chunk > 0 && IsRun(site, pipelineLimit, chunk, states, events) && n < |states|
    ensures Inv(states[n]) && states[n].site == site && states[n].limit == (if pipelineLimit > 1 then pipelineLimit else 1)
    decreases n
  {
    if n > 0 {
      RunInv(site, pipelineLimit, chunk, states, events, n - 1);
      assert IsStep(states, events, n - 1);
      InvStep(states[n - 1], events[n - 1]);
    } else {
      assert BodyOf([], 0) == [];
    }
  }

  /**
    In every state of every run at most one operation is outstanding, responses are started once and
    in the order they were posted, and the bodies on the wire are complete for the responses
    finished, contiguous and in that order. Unless a task threw, at most one response is queued, all
    were started, and, until the connection ends, a write runs exactly when the queue is not empty.
    If one threw, nothing is outstanding.
  */
  lemma SessionIsOrderly(site: Site, pipelineLimit: nat, chunk: nat, states: seq<State>, events: seq<Event>, n: nat)
    requires chunk > 0 && IsRun(site, pipelineLimit, chunk, states, events) && n < |states|
    ensures var s := states[n];
            s.pendingReads + s.writes <= 1 &&
            (if s.failed then s.pendingReads == s.writes == 0 && s.started == FirstIds(s.finished)
             else s.pendingReads + |s.tasks| <= 1 && |s.tasks| <= s.limit && s.started == FirstIds(|s.bodies|) &&
                  (!s.over ==> (s.writes == 1 <==> s.tasks != []))) &&
            s.finished <= |s.bodies| &&
            (forall j, k :: 0 <= j < k < |s.wire| ==> s.wire[j].id <= s.wire[k].id) &&
            (forall i :: 0 <= i < s.finished ==> BodyOf(s.wire, i) == s.bodies[i])
  {
    RunInv(site, pipelineLimit, chunk, states, events, n);
  }

  /** One step of a run: what it does to the failure, and how many responses it queues. */
  lemma RunStep(site: Site, pipelineLimit: nat, chunk: nat, states: seq<State>, events: seq<Event>, n: nat)
    requires chunk > 0 && IsRun(site, pipelineLimit, chunk, states, events) && n < |events|
    ensures !states[n].failed
    ensures states[n + 1].failed <==> events[n].GotRequest? && Breaks(site, events[n].request)
    ensures |states[n + 1].bodies| == |states[n].bodies| + (if events[n].GotRequest? then Posts(site, events[n].request) else 0)
  {
    RunInv(site, pipelineLimit, chunk, states, events, n);
    assert IsStep(states, events, n);
    InvStep(states[n], events[n]);
  }

  /** A connection has failed exactly when the first task of some request threw, or an exception escaped its handling. */
  lemma {:induction false} FailedIff(site: Site, pipelineLimit: nat, chunk: nat, states: seq<State>, events: seq<Event>, n: nat)
    requires chunk > 0 && IsRun(site, pipelineLimit, chunk, states, events) && n < |states|
    ensures states[n].failed <==> exists i :: 0 <= i < n && events[i].GotRequest? && Breaks(site, events[i].request)
    decreases n
  {
    if n > 0 {
      RunStep(site, pipelineLimit, chunk, states, events, n - 1);
      FailedIff(site, pipelineLimit, chunk, states, events, n - 1);
    }
  }

  function RequestCount(events: seq<Event>): nat {
    if events == [] then 0
    else RequestCount(events[..|events| - 1]) + (if events[|events| - 1].GotRequest? then 1 else 0)
  }

  /** No exception escapes, and what the try block posts does not throw. */
  predicate PostedOnce(site: Site, request: Request) {
    !Decide(site, request).Escaped? && (Decide(site, request).Answer? ==> !site.raises(Decide(site, request).code))
  }

  /**
    As many responses are queued as requests were read exactly when no request was answered by a
    handler or a check with a status whose task throws, and no handler threw what is not caught.
  */
  lemma {:induction false} OneResponsePerRequest(site: Site, pipelineLimit: nat, chunk: nat, states: seq<State>, events: seq<Event>, n: nat)
    requires chunk > 0 && IsRun(site, pipelineLimit, chunk, states, events) && n < |states|
    ensures |states[n].bodies| == RequestCount(events[..n]) <==>
            forall i :: 0 <= i < n && events[i].GotRequest? ==> PostedOnce(site, events[i].request)
    decreases n
  {
    if n > 0 {
      RunStep(site, pipelineLimit, chunk, states, events, n - 1);
      OneResponsePerRequest(site, pipelineLimit, chunk, states, events, n - 1);
      FailedIff(site, pipelineLimit, chunk, states, events, n - 1);
      assert events[..n][..n - 1] == events[..n - 1] && events[..n][n - 1] == events[n - 1];
      forall i | 0 <= i < n - 1 && events[i].GotRequest? ensures PostedOnce(site, events[i].request) {
        assert !Breaks(site, events[i].request);
      }
    }
  }

  /** One request queues exactly one response exactly when its first posted task does not throw inside the try block and nothing escapes. */
  lemma PostsOnceIff(s: State, request: Request, close: bool)
    requires Ready(s)
    ensures |Handle(s, request, close).bodies| == |s.bodies| + 1 <==>
            PostedOnce(s.site, request)
  {
    RequestStep(s, request, close);
  }

  /**
    The failing input: a handler that sets a status for which preparing the response throws leaves two
    responses queued, neither of them started, and no operation that could complete: the connection
    ends without a response.
  */
  lemma ThrowingStatusUnanswered(s: State, request: Request, close: bool)
    requires Ready(s) && Handler(s.site, request).Some? && request.act.Produces? && s.site.raises(request.act.code)
    ensures var s' := Handle(s, request, close);
            |s'.tasks| == 2 && s'.tasks[0].code == request.act.code && s'.tasks[1].code == INTERNAL &&
            s'.started == s.started && s'.wire == s.wire && forall e :: !Enabled(s', e)
  {
    HandlerDecides(s.site, request);
    PostFails(s, request.act.code, request.act.data, close);
    SecondStep(PostTask(s, request.act.code, request.act.data, close), InternalText(), close);
  }

  /**
    A connection is read again after a finished response exactly when the pipeline limit is 0 or 1;
    with a larger limit no run ever reads a second request, and after its one response nothing is
    outstanding, so that the connection ends.
  */
  lemma SecondRequestNeedsLimitOne(site: Site, pipelineLimit: nat, chunk: nat, states: seq<State>, events: seq<Event>, n: nat)
    requires chunk > 0 && IsRun(site, pipelineLimit, chunk, states, events) && n < |events|
    ensures IsStep(states, events, n)
    ensures events[n] == Written && !states[n].tasks[0].close ==> (states[n + 1].pendingReads == 1 <==> pipelineLimit <= 1)
    ensures pipelineLimit > 1 ==> RequestCount(events) <= 1
    ensures pipelineLimit > 1 && events[n] == Written ==> states[n + 1].pendingReads == states[n + 1].writes == 0
  {
    RunInv(site, pipelineLimit, chunk, states, events, n);
    assert IsStep(states, events, n);
    if pipelineLimit > 1 {
      OneRead(site, pipelineLimit, chunk, states, events, |events|);
      assert events[..|events|] == events;
    }
  }

  lemma {:induction false} OneRead(site: Site, pipelineLimit: nat, chunk: nat, states: seq<State>, events: seq<Event>, n: nat)
    requires chunk > 0 && IsRun(site, pipelineLimit, chunk, states, events) && n < |states| && pipelineLimit > 1
    ensures RequestCount(events[..n]) + states[n].pendingReads <= 1
    decreases n
  {
    if n > 0 {
      OneRead(site, pipelineLimit, chunk, states, events, n - 1);
      RunReads(site, pipelineLimit, chunk, states, events, n - 1);
      assert events[..n][..n - 1] == events[..n - 1] && events[..n][n - 1] == events[n - 1];
    }
  }

  lemma RunReads(site: Site, pipelineLimit: nat, chunk: nat, states: seq<State>, events: seq<Event>, n: nat)
    requires chunk > 0 && IsRun(site, pipelineLimit, chunk, states, events) && n < |events| && pipelineLimit > 1
    ensures states[n + 1].pendingReads + (if events[n].GotRequest? then 1 else 0) <= states[n].pendingReads
  {
    RunInv(site, pipelineLimit, chunk, states, events, n);
    assert IsStep(states, events, n);
    ReadsShrink(states[n], events[n]);
  }

  lemma ReadsShrink(s: State, e: Event)
    requires Inv(s) && Enabled(s, e) && s.limit > 1
    ensures Apply(s, e).pendingReads + (if e.GotRequest? then 1 else 0) <= s.pendingReads
  {
    if e.GotRequest? {
      HandleFixed(TookRead(s), e.request, e.close);
    }
  }
}
