/**
  Where things come from in a run of `RpcSystem`, told in terms of its events: the results that
  callers get, the objects behind ids, the requests and the proxies.
*/
module RpcOrigins {
  import opened Basics
  import opened PsProtocol
  import opened RpcSystem
  import opened RpcRuns

  // ---------------------------------------------------------------- stub calls

  /** Event j delivers a request to side s and finds the stub of its instance. */
  predicate Dispatches(states: seq<System>, events: seq<Event>, j: nat, s: Side, request: Message, stub: Stub) {
    j < |events| && j < |states| && events[j].Deliver? && events[j].packet == Packet(s, request) && request.Request? &&
    request.head.instance in states[j].Of(s).stubs && stub == states[j].Of(s).stubs[request.head.instance] && stub.Stub?
  }

  /** Event k is the first section of a stub call, with the outcome that the service supplies. */
  predicate Begins(states: seq<System>, events: seq<Event>, k: nat, s: Side, request: Message, stub: Stub, outcome: Work) {
    k < |events| && k < |states| && events[k].Execute? && events[k].s == s && events[k].uuid == request.head.uuid &&
    events[k].outcome == outcome &&
    request.head.uuid in states[k].Of(s).runs && states[k].Of(s).runs[request.head.uuid] == Run(request, stub, Begun)
  }

  /** Event k publishes the object that a stub call holds, under the given id. */
  predicate Publishes(states: seq<System>, events: seq<Event>, k: nat, s: Side, request: Message, stub: Stub,
                      obj: int, interface: Interface, id: Id) {
    k < |events| && k < |states| && events[k].Execute? && events[k].s == s && events[k].uuid == request.head.uuid &&
    events[k].id == id &&
    request.head.uuid in states[k].Of(s).runs && states[k].Of(s).runs[request.head.uuid] == Run(request, stub, Holding(obj, interface))
  }

  ghost predicate Began(states: seq<System>, events: seq<Event>, n: nat, s: Side, request: Message, stub: Stub, outcome: Work) {
    exists k :: 0 <= k < n && Begins(states, events, k, s, request, stub, outcome)
  }

  ghost predicate Published(states: seq<System>, events: seq<Event>, n: nat, s: Side, request: Message, stub: Stub, id: Id) {
    exists k, obj, interface :: 0 <= k < n && Publishes(states, events, k, s, request, stub, obj, interface, id) &&
                                Began(states, events, k, s, request, stub, Holding(obj, interface))
  }

  /** The result is what the service answered, or a reference to the object it held under the id it was published with. */
  ghost predicate Produced(states: seq<System>, events: seq<Event>, n: nat, s: Side, request: Message, stub: Stub, result: Result) {
    Began(states, events, n, s, request, stub, Answered(result)) ||
    (result.Reference? && Published(states, events, n, s, request, stub, result.id))
  }

  ghost predicate Traced(states: seq<System>, events: seq<Event>, n: nat, s: Side, run: Run) {
    (exists j :: 0 <= j < n && Dispatches(states, events, j, s, run.request, run.stub)) &&
    match run.work
    case Begun => true
    case Holding(obj, interface) => Began(states, events, n, s, run.request, run.stub, Holding(obj, interface))
    case Answered(result) => Produced(states, events, n, s, run.request, run.stub, result)
  }

  /** What a step does to the stub calls of a side: dispatch one, move one on, or leave it. */
  predicate RunMoves(sys: System, e: Event, s: Side, u: Uuid, run: Run) {
    (e.Deliver? && e.packet == Packet(s, run.request) && run.request.Request? && run.work.Begun? && run.request.head.uuid == u &&
     run.request.head.instance in sys.Of(s).stubs && run.stub == sys.Of(s).stubs[run.request.head.instance] && run.stub.Stub?) ||
    (u in sys.Of(s).runs && e.Execute? && e.s == s && e.uuid == u &&
     sys.Of(s).runs[u].request == run.request && sys.Of(s).runs[u].stub == run.stub &&
     match sys.Of(s).runs[u].work
     case Begun => run.work == e.outcome
     case Holding(_, _) => run.work == Answered(Reference(e.id))
     case Answered(_) => false) ||
    (u in sys.Of(s).runs && sys.Of(s).runs[u] == run)
  }

  lemma RunMovesAt(sys: System, e: Event, s: Side, u: Uuid)
    requires Enabled(sys, e) && u in Apply(sys, e).Of(s).runs
    ensures RunMoves(sys, e, s, u, Apply(sys, e).Of(s).runs[u])
  {
    if s == Actor(e) {
      ActorMoves(s, sys.From(s), sys.config, e, u);
    }
  }

  lemma ActorMoves(s: Side, v: View, config: Config, e: Event, u: Uuid)
    requires EnabledAt(v, e) && s == Actor(e) && u in StepAt(s, v, config, e).me.runs
    ensures var run := StepAt(s, v, config, e).me.runs[u];
            (e.Deliver? && e.packet == Packet(s, run.request) && run.request.Request? && run.work.Begun? && run.request.head.uuid == u &&
             run.request.head.instance in v.me.stubs && run.stub == v.me.stubs[run.request.head.instance] && run.stub.Stub?) ||
            (u in v.me.runs && e.Execute? && e.uuid == u && v.me.runs[u].request == run.request && v.me.runs[u].stub == run.stub &&
             match v.me.runs[u].work
             case Begun => run.work == e.outcome
             case Holding(_, _) => run.work == Answered(Reference(e.id))
             case Answered(_) => false) ||
            (u in v.me.runs && v.me.runs[u] == run)
  {
  }

  /** What was traced stays traced. */
  lemma TracedLater(states: seq<System>, events: seq<Event>, n: nat, s: Side, run: Run)
    requires Traced(states, events, n, s, run)
    ensures Traced(states, events, n + 1, s, run)
  {
    var j :| 0 <= j < n && Dispatches(states, events, j, s, run.request, run.stub);
    assert 0 <= j < n + 1 && Dispatches(states, events, j, s, run.request, run.stub);
    if run.work.Answered? {
      ProducedLater(states, events, n, s, run.request, run.stub, run.work.result);
    }
  }

  lemma ProducedLater(states: seq<System>, events: seq<Event>, n: nat, s: Side, request: Message, stub: Stub, result: Result)
    requires Produced(states, events, n, s, request, stub, result)
    ensures Produced(states, events, n + 1, s, request, stub, result)
  {
    if Began(states, events, n, s, request, stub, Answered(result)) {
    } else {
      var k, obj, interface :| 0 <= k < n && Publishes(states, events, k, s, request, stub, obj, interface, result.id) &&
                               Began(states, events, k, s, request, stub, Holding(obj, interface));
      assert 0 <= k < n + 1;
    }
  }

  lemma UuidOfRun(states: seq<System>, events: seq<Event>, n: nat, s: Side, u: Uuid)
    requires IsRun(states, events) && n < |states| && u in states[n].Of(s).runs
    ensures states[n].Of(s).runs[u].request.head.uuid == u
  {
    RunAt(states, events, n, s, u);
    RunInv(states, events, n);
  }

  lemma RunTracedNext(states: seq<System>, events: seq<Event>, n: nat, s: Side, u: Uuid)
    requires IsRun(states, events) && n < |events| && u in states[n + 1].Of(s).runs
    requires u in states[n].Of(s).runs ==> Traced(states, events, n, s, states[n].Of(s).runs[u])
    ensures Traced(states, events, n + 1, s, states[n + 1].Of(s).runs[u])
  {
    RunMovesAt(states[n], events[n], s, u);
    if u in states[n].Of(s).runs {
      TracedLater(states, events, n, s, states[n].Of(s).runs[u]);
      UuidOfRun(states, events, n, s, u);
    }
    RunStepTraced(states, events, n, s, u);
  }

  lemma {:induction false} RunTraced(states: seq<System>, events: seq<Event>, n: nat, s: Side, u: Uuid)
    requires IsRun(states, events) && n < |states|
    ensures u in states[n].Of(s).runs ==> Traced(states, events, n, s, states[n].Of(s).runs[u])
    decreases n
  {
    if n > 0 && u in states[n].Of(s).runs {
      RunTraced(states, events, n - 1, s, u);
      RunTracedNext(states, events, n - 1, s, u);
    }
  }

  lemma RunStepTraced(states: seq<System>, events: seq<Event>, n: nat, s: Side, u: Uuid)
    requires n < |events| && n + 1 < |states| && u in states[n + 1].Of(s).runs
    requires RunMoves(states[n], events[n], s, u, states[n + 1].Of(s).runs[u])
    requires u in states[n].Of(s).runs ==>
               states[n].Of(s).runs[u].request.head.uuid == u && Traced(states, events, n, s, states[n].Of(s).runs[u]) &&
               Traced(states, events, n + 1, s, states[n].Of(s).runs[u])
    ensures Traced(states, events, n + 1, s, states[n + 1].Of(s).runs[u])
  {
    var run, e := states[n + 1].Of(s).runs[u], events[n];
    if u in states[n].Of(s).runs && run == states[n].Of(s).runs[u] {
    } else if e.Deliver? {
      assert Dispatches(states, events, n, s, run.request, run.stub);
    } else {
      var before := states[n].Of(s).runs[u];
      if before.work.Begun? {
        assert Begins(states, events, n, s, run.request, run.stub, e.outcome);
      } else {
        assert Publishes(states, events, n, s, run.request, run.stub, before.work.obj, before.work.interface, e.id);
      }
    }
  }

  /**
    What a returning `Send` yields, told by events: a response with the head of its request, whose
    result the peer's service answered to that very request, or a reference to the object the
    service held, under the id it was published with; the call went to the stub that the request's
    instance named at the peer.
  */
  lemma SendReturnsOutcome(states: seq<System>, events: seq<Event>, n: nat)
    requires IsRun(states, events) && n < |events| && events[n].Take?
    ensures var s, u := events[n].s, events[n].uuid;
            var request, m := states[n].Of(s).calls[u].request, states[n].Of(s).responses[u].message;
            m.Response? && m.head == request.head && request.head.uuid == u &&
            exists j, stub :: 0 <= j < n && Dispatches(states, events, j, s.Other(), request, stub) &&
                              Produced(states, events, n, s.Other(), request, stub, m.result)
  {
    var s, u := events[n].s, events[n].uuid;
    SendReturnsComputedResponse(states, events, n);
    var request, m := states[n].Of(s).calls[u].request, states[n].Of(s).responses[u].message;
    var k :| 0 <= k < n && events[k] == Reply(s.Other(), u) && RepliesTo(states[k], events[k], u) &&
             states[k].Of(s.Other()).runs[u].request == request && m == Answer(states[k].Of(s.Other()).runs[u]);
    var run := states[k].Of(s.Other()).runs[u];
    RunTraced(states, events, k, s.Other(), u);
    var j :| 0 <= j < k && Dispatches(states, events, j, s.Other(), run.request, run.stub);
    ProducedMuchLater(states, events, k, n, s.Other(), request, run.stub, m.result);
  }

  lemma {:induction false} ProducedMuchLater(states: seq<System>, events: seq<Event>, k: nat, n: nat, s: Side, request: Message, stub: Stub, result: Result)
    requires k <= n && Produced(states, events, k, s, request, stub, result)
    ensures Produced(states, events, n, s, request, stub, result)
    decreases n
  {
    if k < n {
      ProducedMuchLater(states, events, k, n - 1, s, request, stub, result);
      ProducedLater(states, events, n - 1, s, request, stub, result);
    }
  }

  // ---------------------------------------------------------------- requests

  predicate NamedAfter(op: Op, name: Name) {
    match op
    case Create(_, _) => name == CreateObject
    case Destroy(_) => name == DestroyObject
    case Query(_, _, _) => name == QueryInterface
    case Clone(_, _) => name == CloneReference
    case Invoke(_) => false
  }

  /** An event of a peer posts this request: a proxy's method with its arguments, a call of the object manager, or the death of a managed proxy. */
  predicate PostedBy(p: Peer, e: Event, s: Side, u: Uuid, request: Message, managed: bool) {
    request.Request? && request.head.uuid == u &&
    match e
    case InvokeProxy(side, uuid, proxy, interface, name, arguments) =>
      side == s && uuid == u && proxy in p.proxies && managed == p.proxies[proxy].managed &&
      request.head == Header(u, p.proxies[proxy].instance, interface, name) && request.op == Invoke(arguments)
    case AskManager(side, uuid, op) =>
      side == s && uuid == u && !managed && request.op == op && request.head.instance == Bootstrap &&
      request.head.interface == ManagerInterface && NamedAfter(op, request.head.name)
    case DropProxy(side, proxy, uuid) =>
      side == s && uuid == u && !managed && proxy in p.proxies && p.proxies[proxy].managed &&
      request == Request(Header(u, Bootstrap, ManagerInterface, DestroyObject), Destroy(p.proxies[proxy].instance))
    case _ => false
  }

  predicate Posts(states: seq<System>, events: seq<Event>, i: nat, s: Side, u: Uuid, request: Message, managed: bool) {
    i < |events| && i < |states| && PostedBy(states[i].Of(s), events[i], s, u, request, managed)
  }

  /** The event is one of the three that post a request. */
  predicate Asks(e: Event) {
    e.InvokeProxy? || e.AskManager? || e.DropProxy?
  }

  lemma AskPosts(s: Side, v: View, config: Config, e: Event, u: Uuid)
    requires EnabledAt(v, e) && s == Actor(e) && Asks(e) && u !in v.tokens && u in StepAt(s, v, config, e).tokens
    ensures var token := StepAt(s, v, config, e).tokens[u]; token.from == s && PostedBy(v.me, e, s, u, token.request, token.managed)
  {
  }

  lemma OtherTokens(s: Side, v: View, config: Config, e: Event)
    requires EnabledAt(v, e) && s == Actor(e) && !Asks(e)
    ensures StepAt(s, v, config, e).tokens.Keys == v.tokens.Keys
  {
    match e
    case Deliver(packet, stamp, now) => assert Process(v, config, packet, stamp, now).tokens.Keys == v.tokens.Keys;
    case Execute(_, w, outcome, id) => assert Advance(s, v, config, w, outcome, id).tokens == v.tokens;
    case Take(_, w, now, proxy) => assert Collect(s, v, config, w, now, proxy).tokens.Keys == v.tokens.Keys;
    case _ =>
  }

  lemma PostsAt(sys: System, e: Event, u: Uuid)
    requires Enabled(sys, e) && u !in sys.tokens
    ensures u in Apply(sys, e).tokens ==>
              var token := Apply(sys, e).tokens[u];
              token.from == Actor(e) && PostedBy(sys.Of(token.from), e, token.from, u, token.request, token.managed)
  {
    var s := Actor(e);
    if !Asks(e) {
      OtherTokens(s, sys.From(s), sys.config, e);
    } else if u in Apply(sys, e).tokens {
      AskPosts(s, sys.From(s), sys.config, e, u);
    }
  }

  ghost predicate Posted(states: seq<System>, events: seq<Event>, n: nat, s: Side, u: Uuid, request: Message, managed: bool) {
    exists i :: 0 <= i < n && Posts(states, events, i, s, u, request, managed)
  }

  lemma PostedNext(states: seq<System>, events: seq<Event>, n: nat, u: Uuid)
    requires IsRun(states, events) && n < |events| && u in states[n + 1].tokens
    requires u in states[n].tokens ==>
               var token := states[n].tokens[u]; Posted(states, events, n, token.from, u, token.request, token.managed)
    ensures var token := states[n + 1].tokens[u]; Posted(states, events, n + 1, token.from, u, token.request, token.managed)
  {
    var token := states[n + 1].tokens[u];
    if u in states[n].tokens {
      TokenKept(states, events, n, u);
    } else {
      PostsAt(states[n], events[n], u);
      assert Posts(states, events, n, token.from, u, token.request, token.managed);
    }
  }

  /** Every call on record was posted by an earlier event, with the content that the event gives. */
  lemma {:induction false} RequestOrigin(states: seq<System>, events: seq<Event>, n: nat, u: Uuid)
    requires IsRun(states, events) && n < |states|
    ensures u in states[n].tokens ==>
              var token := states[n].tokens[u]; Posted(states, events, n, token.from, u, token.request, token.managed)
    decreases n
  {
    if n > 0 && u in states[n].tokens {
      RequestOrigin(states, events, n - 1, u);
      PostedNext(states, events, n - 1, u);
    }
  }

  /** A caller waits for the answer to a request that an event posted. */
  lemma CallOrigin(states: seq<System>, events: seq<Event>, n: nat)
    requires IsRun(states, events) && n < |events| && events[n].Take?
    ensures var s, u := events[n].s, events[n].uuid;
            var call := states[n].Of(s).calls[u];
            Posted(states, events, n, s, u, call.request, call.managed)
  {
    var s, u := events[n].s, events[n].uuid;
    ResponseAt(states, events, n, s, u);
    RequestOrigin(states, events, n, u);
  }

  // ---------------------------------------------------------------- proxies

  lemma DropAt(s: Side, v: View, proxy: int, u: Uuid)
    requires proxy in v.me.proxies
    ensures var dead, next := v.me.proxies[proxy], Drop(s, v, proxy, u);
            next.me.proxies == v.me.proxies - {proxy} &&
            next.net == if dead.managed
                        then v.net + multiset{Packet(s.Other(), Request(Header(u, Bootstrap, ManagerInterface, DestroyObject), Destroy(dead.instance)))}
                        else v.net
  {
  }

  /** The death of a managed proxy sends `DestroyObject` for its id; that of another sends nothing. */
  lemma DropSendsDestroy(sys: System, e: Event)
    requires Enabled(sys, e) && e.DropProxy?
    ensures var dead, next := sys.Of(e.s).proxies[e.proxy], Apply(sys, e);
            next.Of(e.s).proxies == sys.Of(e.s).proxies - {e.proxy} &&
            next.net == if dead.managed
                        then sys.net + multiset{Packet(e.s.Other(), Request(Header(e.uuid, Bootstrap, ManagerInterface, DestroyObject), Destroy(dead.instance)))}
                        else sys.net
  {
    DropAt(e.s, sys.From(e.s), e.proxy, e.uuid);
  }

  predicate MakesProxy(call: Call, result: Result, k: int, before: map<int, Proxy>, after: map<int, Proxy>)
    requires call.request.Request?
  {
    if !result.Reference? then after == before
    else match call.request.op
      case Create(_, _) => after == before[k := Proxy(result.id, true)]
      case Query(_, _, _) => after == if result.id.NoId? then before else before[k := Proxy(result.id, true)]
      case Clone(_, _) => after == before[k := Proxy(result.id, false)]
      case Invoke(_) => after == if result.id.NoId? then before else before[k := Proxy(result.id, call.managed)]
      case Destroy(_) => after == before
  }

  /**
    The proxy that a caller gets: managed for a created object and for a queried one, not managed for
    a cloned reference, and as the proxy that was called for an interface result; none for an empty
    id, except for a created object, and none for any other result.
  */
  lemma TakeMakesProxy(states: seq<System>, events: seq<Event>, n: nat)
    requires IsRun(states, events) && n < |events| && events[n].Take?
    ensures var s, u, k := events[n].s, events[n].uuid, events[n].proxy;
            var call, m := states[n].Of(s).calls[u], states[n].Of(s).responses[u].message;
            m.Response? && call.request.Request? && MakesProxy(call, m.result, k, states[n].Of(s).proxies, states[n + 1].Of(s).proxies)
  {
    var s, u := events[n].s, events[n].uuid;
    ResponseAt(states, events, n, s, u);
    SendReturnsComputedResponse(states, events, n);
    assert states[n + 1] == Apply(states[n], events[n]);
  }

  // ---------------------------------------------------------------- objects

  /** Event k issues this id at side s for an object: a parameter that is published, or the object held by a stub call. */
  ghost predicate Issues(states: seq<System>, events: seq<Event>, k: nat, s: Side, id: Id, obj: int, interface: Interface) {
    k < |events| && k < |states| &&
    (events[k] == Publish(s, id, obj, interface) ||
     exists request, stub :: Publishes(states, events, k, s, request, stub, obj, interface, id) &&
                             Began(states, events, k, s, request, stub, Holding(obj, interface)))
  }

  /** The stub of an object: one for its interface if that is registered, else a null stub. */
  predicate Serves(stub: Stub, registered: set<Interface>, obj: int, interface: Interface) {
    if interface in registered then stub == Stub(obj, interface) else stub == NullStub
  }

  /** The step issues the id: a published parameter, or the object that a stub call holds. */
  predicate NewRef(v: View, e: Event, registered: set<Interface>, id: Id, stub: Stub) {
    (e.Publish? && e.id == id && Serves(stub, registered, e.obj, e.interface)) ||
    (e.Execute? && e.id == id && e.uuid in v.me.runs && v.me.runs[e.uuid].work.Holding? &&
     Serves(stub, registered, v.me.runs[e.uuid].work.obj, v.me.runs[e.uuid].work.interface))
  }

  lemma RefNewAt(s: Side, v: View, config: Config, e: Event, id: Id)
    requires EnabledAt(v, e) && s == Actor(e) && id !in v.refs
    ensures var w := StepAt(s, v, config, e);
            id in w.refs ==> w.refs[id].side == s && NewRef(v, e, config.registered, id, w.refs[id].stub)
  {
  }

  lemma RefNew(sys: System, e: Event, id: Id)
    requires Enabled(sys, e) && id !in sys.refs
    ensures id in Apply(sys, e).refs ==>
              var ref := Apply(sys, e).refs[id]; ref.side == Actor(e) && NewRef(sys.From(ref.side), e, sys.config.registered, id, ref.stub)
  {
    RefNewAt(Actor(e), sys.From(Actor(e)), sys.config, e, id);
  }

  ghost predicate IssuedFor(states: seq<System>, events: seq<Event>, n: nat, s: Side, id: Id, stub: Stub, registered: set<Interface>) {
    exists k, obj, interface :: 0 <= k < n && Issues(states, events, k, s, id, obj, interface) && Serves(stub, registered, obj, interface)
  }

  lemma IssuedNow(states: seq<System>, events: seq<Event>, n: nat, id: Id)
    requires IsRun(states, events) && n < |events| && id !in states[n].refs && id in states[n + 1].refs
    ensures var ref := states[n + 1].refs[id]; IssuedFor(states, events, n + 1, ref.side, id, ref.stub, states[n].config.registered)
  {
    var e, ref := events[n], states[n + 1].refs[id];
    RefNew(states[n], e, id);
    if e.Publish? {
      assert Issues(states, events, n, e.s, id, e.obj, e.interface);
    } else {
      HoldingIssues(states, events, n, e.s, e.uuid);
    }
  }

  lemma HoldingIssues(states: seq<System>, events: seq<Event>, n: nat, s: Side, u: Uuid)
    requires IsRun(states, events) && n < |events| && events[n].Execute? && events[n].s == s && events[n].uuid == u
    requires u in states[n].Of(s).runs && states[n].Of(s).runs[u].work.Holding?
    ensures var work := states[n].Of(s).runs[u].work; Issues(states, events, n, s, events[n].id, work.obj, work.interface)
  {
    var run := states[n].Of(s).runs[u];
    RunTraced(states, events, n, s, u);
    UuidOfRun(states, events, n, s, u);
    assert Publishes(states, events, n, s, run.request, run.stub, run.work.obj, run.work.interface, events[n].id);
  }

  lemma {:induction false} SameConfig(states: seq<System>, events: seq<Event>, n: nat)
    requires IsRun(states, events) && n < |states|
    ensures states[n].config == states[0].config
    decreases n
  {
    if n > 0 {
      SameConfig(states, events, n - 1);
    }
  }

  lemma IssuedNext(states: seq<System>, events: seq<Event>, n: nat, id: Id)
    requires IsRun(states, events) && n < |events| && id in states[n + 1].refs
    requires id in states[n].refs ==>
               var ref := states[n].refs[id]; IssuedFor(states, events, n, ref.side, id, ref.stub, states[0].config.registered)
    ensures var ref := states[n + 1].refs[id]; IssuedFor(states, events, n + 1, ref.side, id, ref.stub, states[0].config.registered)
  {
    if id in states[n].refs {
      RefKept(states, events, n, id);
    } else {
      SameConfig(states, events, n);
      IssuedNow(states, events, n, id);
    }
  }

  lemma {:induction false} RefOrigin(states: seq<System>, events: seq<Event>, n: nat, id: Id)
    requires IsRun(states, events) && n < |states|
    ensures id in states[n].refs ==>
              var ref := states[n].refs[id]; IssuedFor(states, events, n, ref.side, id, ref.stub, states[0].config.registered)
    decreases n
  {
    if n > 0 && id in states[n].refs {
      RefOrigin(states, events, n - 1, id);
      IssuedNext(states, events, n - 1, id);
    }
  }

  /** Every entry of a stub table other than the object manager's serves the object that its id was issued for. */
  lemma StubServesObject(states: seq<System>, events: seq<Event>, n: nat, s: Side, id: Id)
    requires IsRun(states, events) && n < |states| && id in states[n].Of(s).stubs && !id.Bootstrap?
    ensures IssuedFor(states, events, n, s, id, states[n].Of(s).stubs[id], states[0].config.registered)
  {
    StubsAt(states, events, n, s, id);
    RefOrigin(states, events, n, id);
  }

  /** So does the entry that a live managed proxy names: its calls reach the object that the service gave out under its id. */
  lemma LiveProxyReachesObject(states: seq<System>, events: seq<Event>, n: nat, s: Side, k: int)
    requires IsRun(states, events) && n < |states| && k in states[n].Of(s).proxies
    requires states[n].Of(s).proxies[k].managed && !states[n].Of(s).proxies[k].instance.NoId?
    ensures var id := states[n].Of(s).proxies[k].instance;
            id in states[n].Of(s.Other()).stubs &&
            IssuedFor(states, events, n, s.Other(), id, states[n].Of(s.Other()).stubs[id], states[0].config.registered)
  {
    LiveProxyIsBound(states, events, n, n, s, k);
    BootstrapNotIssued(states, events, n);
    StubServesObject(states, events, n, s.Other(), states[n].Of(s).proxies[k].instance);
  }

  /** A cloned reference holds the object of the cloned entry, a created one the interface asked for. */
  lemma ManagerHolds(states: seq<System>, events: seq<Event>, k: nat, s: Side, request: Message, obj: int, interface: Interface)
    requires IsRun(states, events) && k < |events|
    requires request.Request? && request.head.interface == ManagerInterface
    requires Begins(states, events, k, s, request, Stub(MANAGER_OBJECT, ManagerInterface), Holding(obj, interface))
    ensures match request.op
            case Clone(id, target) =>
              id in states[k].Of(s).stubs && states[k].Of(s).stubs[id].Stub? && obj == states[k].Of(s).stubs[id].obj && interface == target
            case Create(_, target) => interface == target && !target.NoInterface?
            case Query(id, target, _) => id in states[k].Of(s).stubs && interface == target
            case _ => false
  {
    assert Enabled(states[k], events[k]);
  }

  /**
    What the object manager answers at once: `DestroyObject` throws for an empty or unknown id and
    returns nothing otherwise, the other requests throw, for an unknown id always, or return an empty
    reference; a cloned reference of a known id is never refused.
  */
  lemma ManagerAnswers(states: seq<System>, events: seq<Event>, k: nat, s: Side, request: Message, result: Result)
    requires IsRun(states, events) && k < |events|
    requires request.Request? && request.head.interface == ManagerInterface
    requires Begins(states, events, k, s, request, Stub(MANAGER_OBJECT, ManagerInterface), Answered(result))
    ensures match request.op
            case Destroy(id) => result == if !id.NoId? && id in states[k].Of(s).stubs then Nothing else Thrown
            case Clone(id, _) => result == Thrown && id !in states[k].Of(s).stubs
            case Query(id, _, _) => result == Thrown || (result == Reference(NoId) && id in states[k].Of(s).stubs)
            case Create(_, _) => result == Thrown || result == Reference(NoId)
            case Invoke(_) => result == Thrown
  {
    assert Enabled(states[k], events[k]);
  }

  // ---------------------------------------------------------------- destroyed ids

  lemma NoReturnAt(s: Side, v: View, config: Config, e: Event, id: Id)
    requires EnabledAt(v, e) && s == Actor(e) && id in v.refs && id !in v.me.stubs
    ensures id !in StepAt(s, v, config, e).me.stubs
  {
  }

  lemma NoReturn(sys: System, e: Event, s: Side, id: Id)
    requires Enabled(sys, e) && id in sys.refs && id !in sys.Of(s).stubs
    ensures id !in Apply(sys, e).Of(s).stubs
  {
    if s == Actor(e) {
      NoReturnAt(s, sys.From(s), sys.config, e, id);
    }
  }

  /** The id was issued, and is not in the table of side s. */
  predicate Missing(sys: System, s: Side, id: Id) {
    id in sys.refs && id !in sys.Of(s).stubs
  }

  lemma MissingNext(states: seq<System>, events: seq<Event>, n: nat, s: Side, id: Id)
    requires IsRun(states, events) && n < |events| && Missing(states[n], s, id)
    ensures Missing(states[n + 1], s, id)
  {
    RefKept(states, events, n, id);
    NoReturn(states[n], events[n], s, id);
  }

  lemma MissingAfterDestroy(states: seq<System>, events: seq<Event>, i: nat)
    requires IsRun(states, events) && i < |events| && DestroyStep(states[i], events[i])
    ensures Missing(states[i + 1], events[i].s, DestroyedId(states[i], events[i]))
  {
    DestroyFinds(states, events, i);
    DestroyRemoves(states[i], events[i]);
  }

  lemma {:induction false} StaysMissing(states: seq<System>, events: seq<Event>, i: nat, n: nat, s: Side, id: Id)
    requires IsRun(states, events) && i <= n < |states| && Missing(states[i], s, id)
    ensures Missing(states[n], s, id)
    decreases n
  {
    if i < n {
      StaysMissing(states, events, i, n - 1, s, id);
      MissingNext(states, events, n - 1, s, id);
    }
  }

  /** A destroyed id is in no table of the peer that destroyed it, from then on. */
  lemma DestroyedStaysGone(states: seq<System>, events: seq<Event>, i: nat, n: nat)
    requires IsRun(states, events) && i < n < |states| && DestroyStep(states[i], events[i])
    ensures DestroyedId(states[i], events[i]) !in states[n].Of(events[i].s).stubs
  {
    MissingAfterDestroy(states, events, i);
    StaysMissing(states, events, i + 1, n, events[i].s, DestroyedId(states[i], events[i]));
  }

  lemma DestroyRemoves(sys: System, e: Event)
    requires Enabled(sys, e) && DestroyStep(sys, e)
    ensures DestroyedId(sys, e) !in Apply(sys, e).Of(e.s).stubs
  {
  }

  // ---------------------------------------------------------------- the end of a call

  /** A `Send` of side s for this uuid ends here, with its response or without. */
  predicate Ends(e: Event, s: Side, u: Uuid) {
    (e.Take? || e.GiveUp?) && e.s == s && e.uuid == u
  }

  lemma NotWaitingAt(s: Side, v: View, config: Config, e: Event, u: Uuid)
    requires EnabledAt(v, e) && s == Actor(e)
    ensures Ends(e, s, u) ==> u in v.me.calls && u !in StepAt(s, v, config, e).me.calls
    ensures u in v.tokens && u !in v.me.calls ==> u !in StepAt(s, v, config, e).me.calls
  {
  }

  lemma NotWaiting(sys: System, e: Event, s: Side, u: Uuid)
    requires Enabled(sys, e)
    ensures Ends(e, s, u) ==> u in sys.Of(s).calls && u !in Apply(sys, e).Of(s).calls
    ensures u in sys.tokens && u !in sys.Of(s).calls ==> u !in Apply(sys, e).Of(s).calls
  {
    if s == Actor(e) {
      NotWaitingAt(s, sys.From(s), sys.config, e, u);
    }
  }

  lemma CallRecorded(states: seq<System>, events: seq<Event>, n: nat, s: Side, u: Uuid)
    requires IsRun(states, events) && n < |states|
    ensures u in states[n].Of(s).calls ==> u in states[n].tokens
  {
    RunInv(states, events, n);
    InvEitherSide(states[n], s);
  }

  lemma RunNotWaiting(states: seq<System>, events: seq<Event>, n: nat, s: Side, u: Uuid)
    requires IsRun(states, events) && n < |events|
    ensures Ends(events[n], s, u) ==> u in states[n].Of(s).calls && u in states[n].tokens && u !in states[n + 1].Of(s).calls
    ensures u in states[n].tokens ==> u in states[n + 1].tokens
    ensures u in states[n].tokens && u !in states[n].Of(s).calls ==> u !in states[n + 1].Of(s).calls
  {
    NotWaiting(states[n], events[n], s, u);
    CallRecorded(states, events, n, s, u);
    if u in states[n].tokens {
      TokenKept(states, events, n, u);
    }
  }

  predicate Ended(s: System, side: Side, u: Uuid) {
    u in s.tokens && u !in s.Of(side).calls
  }

  lemma EndedNext(states: seq<System>, events: seq<Event>, n: nat, s: Side, u: Uuid)
    requires IsRun(states, events) && n < |events| && (Ended(states[n], s, u) || Ends(events[n], s, u))
    ensures Ended(states[n + 1], s, u)
  {
    RunNotWaiting(states, events, n, s, u);
  }

  lemma {:induction false} StaysEnded(states: seq<System>, events: seq<Event>, i: nat, n: nat, s: Side, u: Uuid)
    requires IsRun(states, events) && i < n < |states| && Ends(events[i], s, u)
    ensures Ended(states[n], s, u)
    decreases n
  {
    if i + 1 < n {
      StaysEnded(states, events, i, n - 1, s, u);
    }
    EndedNext(states, events, n - 1, s, u);
  }

  /** A call ends once: with its response, or by giving up. */
  lemma SendEndsOnce(states: seq<System>, events: seq<Event>, i: nat, j: nat, s: Side, u: Uuid)
    requires IsRun(states, events) && i < |events| && j < |events| && Ends(events[i], s, u) && Ends(events[j], s, u)
    ensures i == j
  {
    RunNotWaiting(states, events, i, s, u);
    RunNotWaiting(states, events, j, s, u);
    if i < j {
      StaysEnded(states, events, i, j, s, u);
    } else if j < i {
      StaysEnded(states, events, j, i, s, u);
    }
  }
}
