/**
  What the channel and the tables of the peers hold at any moment of a run of `RpcSystem`, told by
  the events before it: nothing is lost, forged or left behind.
*/
module RpcTables {
  import opened Basics
  import opened PsProtocol
  import opened RpcSystem
  import opened RpcRuns
  import opened RpcOrigins

  // ---------------------------------------------------------------- the channel

  /** The packets that an event of a peer puts on the channel. */
  function Sent(p: Peer, e: Event): multiset<Packet> {
    match e
    case InvokeProxy(s, u, k, interface, name, arguments) =>
      if k in p.proxies then multiset{Packet(s.Other(), Request(Header(u, p.proxies[k].instance, interface, name), Invoke(arguments)))}
      else multiset{}
    case AskManager(s, u, op) =>
      var name := if op.Create? then CreateObject else if op.Query? then QueryInterface else CloneReference;
      multiset{Packet(s.Other(), Request(Header(u, Bootstrap, ManagerInterface, name), op))}
    case DropProxy(s, k, u) =>
      if k in p.proxies && p.proxies[k].managed
      then multiset{Packet(s.Other(), Request(Header(u, Bootstrap, ManagerInterface, DestroyObject), Destroy(p.proxies[k].instance)))}
      else multiset{}
    case Reply(s, u) =>
      if u in p.runs && p.runs[u].work.Answered?
      then multiset{Packet(s.Other(), Response(p.runs[u].request.head, p.runs[u].work.result))}
      else multiset{}
    case _ => multiset{}
  }

  /** The packet that an event takes off the channel. */
  function Gone(e: Event): multiset<Packet> {
    if e.Deliver? || e.Lose? then multiset{e.packet} else multiset{}
  }

  lemma PostSends(s: Side, v: View, config: Config, e: Event)
    requires EnabledAt(v, e) && s == Actor(e) && (e.InvokeProxy? || e.AskManager?)
    ensures StepAt(s, v, config, e).net == v.net + Sent(v.me, e)
  {
  }

  lemma ReplySends(s: Side, v: View, config: Config, e: Event)
    requires EnabledAt(v, e) && s == Actor(e) && e.Reply?
    ensures StepAt(s, v, config, e).net == v.net + Sent(v.me, e)
  {
  }

  lemma OthersSend(s: Side, v: View, config: Config, e: Event)
    requires EnabledAt(v, e) && s == Actor(e) && !e.InvokeProxy? && !e.AskManager? && !e.DropProxy? && !e.Reply?
    ensures StepAt(s, v, config, e).net == v.net - Gone(e) && Sent(v.me, e) == multiset{} && Gone(e) <= v.net
  {
  }

  lemma DropSends(s: Side, v: View, config: Config, e: Event)
    requires EnabledAt(v, e) && s == Actor(e) && e.DropProxy?
    ensures StepAt(s, v, config, e).net == v.net + Sent(v.me, e)
  {
    DropAt(s, v, e.proxy, e.uuid);
  }

  lemma ChannelAt(s: Side, v: View, config: Config, e: Event)
    requires EnabledAt(v, e) && s == Actor(e)
    ensures StepAt(s, v, config, e).net + Gone(e) == v.net + Sent(v.me, e)
  {
    if e.DropProxy? {
      DropSends(s, v, config, e);
    } else if e.InvokeProxy? || e.AskManager? {
      PostSends(s, v, config, e);
    } else if e.Reply? {
      ReplySends(s, v, config, e);
    } else {
      OthersSend(s, v, config, e);
    }
  }

  lemma ChannelStep(sys: System, e: Event)
    requires Enabled(sys, e)
    ensures Apply(sys, e).net + Gone(e) == sys.net + Sent(sys.Of(Actor(e)), e)
  {
    ChannelAt(Actor(e), sys.From(Actor(e)), sys.config, e);
  }

  function SentBy(states: seq<System>, events: seq<Event>, n: nat): multiset<Packet>
    requires n <= |events| && n <= |states|
  {
    if n == 0 then multiset{} else SentBy(states, events, n - 1) + Sent(states[n - 1].Of(Actor(events[n - 1])), events[n - 1])
  }

  function GoneBy(events: seq<Event>, n: nat): multiset<Packet>
    requires n <= |events|
  {
    if n == 0 then multiset{} else GoneBy(events, n - 1) + Gone(events[n - 1])
  }

  lemma BalanceNext(states: seq<System>, events: seq<Event>, n: nat)
    requires IsRun(states, events) && n < |events| && SentBy(states, events, n) == states[n].net + GoneBy(events, n)
    ensures SentBy(states, events, n + 1) == states[n + 1].net + GoneBy(events, n + 1)
  {
    ChannelStep(states[n], events[n]);
    var sent, gone := Sent(states[n].Of(Actor(events[n])), events[n]), Gone(events[n]);
    assert states[n + 1] == Apply(states[n], events[n]);
    assert GoneBy(events, n + 1) == GoneBy(events, n) + gone && SentBy(states, events, n + 1) == SentBy(states, events, n) + sent;
    Balance(SentBy(states, events, n), states[n].net, GoneBy(events, n), sent, states[n + 1].net, gone);
  }

  lemma Balance(sent: multiset<Packet>, net: multiset<Packet>, gone: multiset<Packet>, more: multiset<Packet>, after: multiset<Packet>, out: multiset<Packet>)
    requires sent == net + gone && after + out == net + more
    ensures sent + more == after + (gone + out)
  {
    forall k ensures (sent + more)[k] == (after + (gone + out))[k] {
      assert (after + out)[k] == (net + more)[k];
    }
  }

  /** Every packet ever sent is on the channel, or was delivered or lost, as often as it was sent. */
  lemma {:induction false} PacketsAreConserved(states: seq<System>, events: seq<Event>, n: nat)
    requires IsRun(states, events) && n < |states|
    ensures SentBy(states, events, n) == states[n].net + GoneBy(events, n)
    decreases n
  {
    if n == 0 {
      assert states[0].net == multiset{};
    } else {
      PacketsAreConserved(states, events, n - 1);
      BalanceNext(states, events, n - 1);
    }
  }

  // ---------------------------------------------------------------- the tables

  /** An entry of a table: a stub, a waiting call, a stub call, a stored response or a proxy. */
  datatype Entry = StubOf(id: Id) | CallOf(uuid: Uuid) | RunOf(uuid: Uuid) | ResponseOf(uuid: Uuid, stamp: int) | ProxyOf(key: int)

  predicate Present(p: Peer, x: Entry) {
    match x
    case StubOf(id) => id in p.stubs
    case CallOf(u) => u in p.calls
    case RunOf(u) => u in p.runs
    case ResponseOf(u, stamp) => u in p.responses && p.responses[u].stamp == stamp
    case ProxyOf(k) => k in p.proxies
  }

  predicate Arrives(e: Event, s: Side, u: Uuid) {
    e.Deliver? && e.packet.to == s && e.packet.message.head.uuid == u && WellFormed(e.packet.message.head)
  }

  /** The response gives its caller a proxy. */
  predicate GivesProxy(op: Op, result: Result) {
    result.Reference? && !op.Destroy? && (op.Query? || op.Invoke? ==> !result.id.NoId?)
  }

  /** What makes an entry. */
  predicate Enters(p: Peer, e: Event, s: Side, x: Entry) {
    match x
    case StubOf(id) =>
      (e.Publish? && e.s == s && e.id == id) ||
      (e.Execute? && e.s == s && e.id == id && e.uuid in p.runs && p.runs[e.uuid].work.Holding?)
    case CallOf(u) =>
      ((e.InvokeProxy? || e.AskManager?) && e.s == s && e.uuid == u) ||
      (e.DropProxy? && e.s == s && e.uuid == u && e.proxy in p.proxies && p.proxies[e.proxy].managed)
    case RunOf(u) =>
      Arrives(e, s, u) && e.packet.message.Request? &&
      e.packet.message.head.instance in p.stubs && p.stubs[e.packet.message.head.instance].Stub?
    case ResponseOf(u, stamp) => Arrives(e, s, u) && e.packet.message.Response? && e.stamp == stamp
    case ProxyOf(k) =>
      e.Take? && e.s == s && e.proxy == k && e.uuid in p.calls && e.uuid in p.responses &&
      p.calls[e.uuid].request.Request? && p.responses[e.uuid].message.Response? &&
      GivesProxy(p.calls[e.uuid].request.op, p.responses[e.uuid].message.result)
  }

  /** The event cleans the response table of side s, at time e.now. */
  predicate Cleans(e: Event, s: Side) {
    ((e.Take? || e.GiveUp?) && e.s == s) || (e.Deliver? && Arrives(e, s, e.packet.message.head.uuid) && e.packet.message.Response?)
  }

  /** What removes it. */
  predicate Leaves(p: Peer, e: Event, s: Side, x: Entry, timeout: int) {
    match x
    case StubOf(id) =>
      e.Execute? && e.s == s && e.uuid in p.runs && p.runs[e.uuid].work.Begun? && IsManagerCall(p.runs[e.uuid]) &&
      p.runs[e.uuid].request.op == Destroy(id) && !id.NoId?
    case CallOf(u) => (e.Take? || e.GiveUp?) && e.s == s && e.uuid == u
    case RunOf(u) => e == Reply(s, u)
    case ResponseOf(u, stamp) =>
      (e.Take? && e.s == s && e.uuid == u) || (Cleans(e, s) && stamp < e.now && e.now - stamp > timeout)
    case ProxyOf(k) => e.DropProxy? && e.s == s && e.proxy == k
  }

  /** What a run knows of a step: uuids do not collide, and the checks of a returning `Send` succeed. */
  predicate Regular(p: Peer, e: Event) {
    (e.Deliver? ==> e.packet.message.head.uuid !in p.responses && e.packet.message.head.uuid !in p.runs) &&
    (e.Take? ==> e.uuid in p.calls && e.uuid in p.responses && ChecksPass(p.calls[e.uuid], p.responses[e.uuid].message) &&
                 p.calls[e.uuid].request.Request?)
  }

  lemma EntryDropped(s: Side, v: View, config: Config, e: Event, x: Entry)
    requires EnabledAt(v, e) && s == Actor(e) && Regular(v.me, e) && e.DropProxy?
    ensures Present(StepAt(s, v, config, e).me, x) <==> Enters(v.me, e, s, x) || (Present(v.me, x) && !Leaves(v.me, e, s, x, config.timeout))
  {
  }

  lemma EntryDelivered(s: Side, v: View, config: Config, e: Event, x: Entry)
    requires EnabledAt(v, e) && s == Actor(e) && Regular(v.me, e) && e.Deliver?
    ensures Present(StepAt(s, v, config, e).me, x) <==> Enters(v.me, e, s, x) || (Present(v.me, x) && !Leaves(v.me, e, s, x, config.timeout))
  {
  }

  lemma EntryTaken(s: Side, v: View, config: Config, e: Event, x: Entry)
    requires EnabledAt(v, e) && s == Actor(e) && Regular(v.me, e) && e.Take?
    ensures Present(StepAt(s, v, config, e).me, x) <==> Enters(v.me, e, s, x) || (Present(v.me, x) && !Leaves(v.me, e, s, x, config.timeout))
  {
  }

  lemma EntryExecuted(s: Side, v: View, config: Config, e: Event, x: Entry)
    requires EnabledAt(v, e) && s == Actor(e) && e.Execute?
    ensures Present(StepAt(s, v, config, e).me, x) <==> Enters(v.me, e, s, x) || (Present(v.me, x) && !Leaves(v.me, e, s, x, config.timeout))
  {
  }

  lemma EntryAsked(s: Side, v: View, config: Config, e: Event, x: Entry)
    requires EnabledAt(v, e) && s == Actor(e) && (e.InvokeProxy? || e.AskManager?)
    ensures Present(StepAt(s, v, config, e).me, x) <==> Enters(v.me, e, s, x) || (Present(v.me, x) && !Leaves(v.me, e, s, x, config.timeout))
  {
  }

  lemma EntryAt(s: Side, v: View, config: Config, e: Event, x: Entry)
    requires EnabledAt(v, e) && s == Actor(e) && (e.Publish? || e.Reply? || e.GiveUp? || e.Lose?)
    ensures Present(StepAt(s, v, config, e).me, x) <==> Enters(v.me, e, s, x) || (Present(v.me, x) && !Leaves(v.me, e, s, x, config.timeout))
  {
  }

  lemma OtherEntry(sys: System, e: Event, s: Side, x: Entry)
    requires Enabled(sys, e) && s != Actor(e)
    ensures Apply(sys, e).Of(s) == sys.Of(s)
  {
    assert StepAt(Actor(e), sys.From(Actor(e)), sys.config, e).other == sys.Of(s);
  }

  lemma NotConcerned(p: Peer, e: Event, s: Side, x: Entry, timeout: int)
    requires s != Actor(e)
    ensures !Enters(p, e, s, x) && !Leaves(p, e, s, x, timeout)
  {
  }

  lemma EntryStep(sys: System, e: Event, s: Side, x: Entry)
    requires Enabled(sys, e) && Regular(sys.Of(Actor(e)), e)
    ensures Present(Apply(sys, e).Of(s), x) <==>
            Enters(sys.Of(s), e, s, x) || (Present(sys.Of(s), x) && !Leaves(sys.Of(s), e, s, x, sys.config.timeout))
  {
    var v := sys.From(s);
    if s != Actor(e) {
      OtherEntry(sys, e, s, x);
      NotConcerned(sys.Of(s), e, s, x, sys.config.timeout);
    } else if e.DropProxy? {
      EntryDropped(s, v, sys.config, e, x);
    } else if e.Deliver? {
      EntryDelivered(s, v, sys.config, e, x);
    } else if e.Take? {
      EntryTaken(s, v, sys.config, e, x);
    } else if e.Execute? {
      EntryExecuted(s, v, sys.config, e, x);
    } else if e.InvokeProxy? || e.AskManager? {
      EntryAsked(s, v, sys.config, e, x);
    } else {
      EntryAt(s, v, sys.config, e, x);
    }
  }

  lemma RunIsRegular(states: seq<System>, events: seq<Event>, n: nat)
    requires IsRun(states, events) && n < |events|
    ensures Regular(states[n].Of(Actor(events[n])), events[n])
  {
    var e := events[n];
    if e.Deliver? {
      UuidsNeverCollide(states, events, n);
    } else if e.Take? {
      SendReturnsComputedResponse(states, events, n);
      TakeMakesProxy(states, events, n);
    }
  }

  /** Event k made the entry, and nothing between k and n removed it. */
  ghost predicate MadeAt(states: seq<System>, events: seq<Event>, k: int, n: nat, s: Side, x: Entry, timeout: int) {
    0 <= k < n <= |events| && n <= |states| && Enters(states[k].Of(s), events[k], s, x) &&
    forall i :: k < i < n ==> !Leaves(states[i].Of(s), events[i], s, x, timeout)
  }

  ghost predicate Made(states: seq<System>, events: seq<Event>, n: nat, s: Side, x: Entry, timeout: int) {
    exists k :: MadeAt(states, events, k, n, s, x, timeout)
  }

  lemma MadeNext(states: seq<System>, events: seq<Event>, n: nat, s: Side, x: Entry, timeout: int)
    requires n < |events| && n + 1 <= |states|
    ensures Made(states, events, n + 1, s, x, timeout) <==>
            Enters(states[n].Of(s), events[n], s, x) ||
            (Made(states, events, n, s, x, timeout) && !Leaves(states[n].Of(s), events[n], s, x, timeout))
  {
    if Enters(states[n].Of(s), events[n], s, x) {
      assert MadeAt(states, events, n, n + 1, s, x, timeout);
    } else if Made(states, events, n, s, x, timeout) && !Leaves(states[n].Of(s), events[n], s, x, timeout) {
      var k :| MadeAt(states, events, k, n, s, x, timeout);
      assert MadeAt(states, events, k, n + 1, s, x, timeout);
    }
    if Made(states, events, n + 1, s, x, timeout) {
      var k :| MadeAt(states, events, k, n + 1, s, x, timeout);
      assert k < n ==> MadeAt(states, events, k, n, s, x, timeout);
    }
  }

  lemma EntryNext(states: seq<System>, events: seq<Event>, n: nat, s: Side, x: Entry)
    requires IsRun(states, events) && n < |events|
    ensures Present(states[n + 1].Of(s), x) <==>
            Enters(states[n].Of(s), events[n], s, x) ||
            (Present(states[n].Of(s), x) && !Leaves(states[n].Of(s), events[n], s, x, states[0].config.timeout))
  {
    RunIsRegular(states, events, n);
    SameConfig(states, events, n);
    EntryStep(states[n], events[n], s, x);
  }

  ghost predicate Exact(states: seq<System>, events: seq<Event>, n: nat, s: Side, x: Entry, timeout: int)
    requires n < |states|
  {
    Present(states[n].Of(s), x) <==> x == StubOf(Bootstrap) || Made(states, events, n, s, x, timeout)
  }

  lemma ExactNext(states: seq<System>, events: seq<Event>, n: nat, s: Side, x: Entry)
    requires IsRun(states, events) && n < |events| && Exact(states, events, n, s, x, states[0].config.timeout)
    ensures Exact(states, events, n + 1, s, x, states[0].config.timeout)
  {
    EntryNext(states, events, n, s, x);
    MadeNext(states, events, n, s, x, states[0].config.timeout);
    if x == StubOf(Bootstrap) {
      BootstrapNeverRemoved(states, events, n + 1, s);
    }
  }

  lemma ExactFirst(states: seq<System>, events: seq<Event>, s: Side, x: Entry)
    requires IsRun(states, events)
    ensures Exact(states, events, 0, s, x, states[0].config.timeout)
  {
    assert states[0].Of(s) == InitPeer();
    assert Present(InitPeer(), x) <==> x == StubOf(Bootstrap);
  }

  /**
    At every moment of every run, each table holds exactly the entries that an event made and no later
    event removed, and besides them the stub of the object manager, which nothing removes.
  */
  lemma {:induction false} TablesAreExact(states: seq<System>, events: seq<Event>, n: nat, s: Side, x: Entry)
    requires IsRun(states, events) && n < |states|
    ensures Present(states[n].Of(s), x) <==> x == StubOf(Bootstrap) || Made(states, events, n, s, x, states[0].config.timeout)
    decreases n
  {
    if n == 0 {
      ExactFirst(states, events, s, x);
    } else {
      TablesAreExact(states, events, n - 1, s, x);
      ExactNext(states, events, n - 1, s, x);
    }
  }

  // ---------------------------------------------------------------- a call can complete

  /** Each state follows from the one before it by its event. */
  ghost predicate Trace<S(!new), E(!new)>(step: (S, E, S) -> bool, states: seq<S>, events: seq<E>) {
    |states| == |events| + 1 && forall i :: 0 <= i < |events| ==> step(states[i], events[i], states[i + 1])
  }

  lemma TraceTwo<S(!new), E(!new)>(step: (S, E, S) -> bool, a: S, e: E, b: S, f: E, c: S)
    requires step(a, e, b) && step(b, f, c)
    ensures Trace(step, [a, b, c], [e, f])
  {
  }

  lemma TraceJoin<S(!new), E(!new)>(step: (S, E, S) -> bool, a: seq<S>, es: seq<E>, b: seq<S>, fs: seq<E>)
    requires Trace(step, a, es) && Trace(step, b, fs) && a[|es|] == b[0]
    ensures Trace(step, a + b[1..], es + fs)
  {
    var all, gs := a + b[1..], es + fs;
    forall i | 0 <= i < |gs| ensures step(all[i], gs[i], all[i + 1]) {
      if i >= |es| {
        assert step(b[i - |es|], fs[i - |es|], b[i - |es| + 1]);
        assert i > |es| ==> all[i] == b[i - |es|];
      }
    }
  }

  lemma TraceSix<S(!new), E(!new)>(step: (S, E, S) -> bool, states: seq<S>, events: seq<E>, more: seq<S>, es: seq<E>)
    requires |more| == |es| == 6 && Trace(step, states, events)
    requires Trace(step, [states[|events|], more[0], more[1]], [es[0], es[1]])
    requires Trace(step, [more[1], more[2], more[3]], [es[2], es[3]])
    requires Trace(step, [more[3], more[4], more[5]], [es[4], es[5]])
    ensures Trace(step, states + more, events + es)
  {
    TraceJoin(step, states, events, [states[|events|], more[0], more[1]], [es[0], es[1]]);
    var a, fs := states + [states[|events|], more[0], more[1]][1..], events + [es[0], es[1]];
    TraceJoin(step, a, fs, [more[1], more[2], more[3]], [es[2], es[3]]);
    var b, gs := a + [more[1], more[2], more[3]][1..], fs + [es[2], es[3]];
    TraceJoin(step, b, gs, [more[3], more[4], more[5]], [es[4], es[5]]);
    assert b + [more[3], more[4], more[5]][1..] == states + more && gs + [es[4], es[5]] == events + es;
  }

  predicate Goes(sys: System, e: Event, next: System) {
    Enabled(sys, e) && next == Apply(sys, e)
  }

  lemma RunIsTrace(states: seq<System>, events: seq<Event>)
    requires IsRun(states, events)
    ensures Init(states[0]) && Trace(Goes, states, events)
  {
    forall i | 0 <= i < |events| ensures Goes(states[i], events[i], states[i + 1]) {
    }
  }

  lemma TraceIsRun(states: seq<System>, events: seq<Event>)
    requires states != [] && Init(states[0]) && Trace(Goes, states, events)
    ensures IsRun(states, events)
  {
    forall i | 0 <= i < |events| ensures Enabled(states[i], events[i]) && states[i + 1] == Apply(states[i], events[i]) {
      assert Goes(states[i], events[i], states[i + 1]);
    }
  }

  /** Side s waits for u, its peer has the stub, and no response for u is stored anywhere. */
  predicate Waits(sys: System, s: Side, request: Message, stub: Stub, free: int) {
    var u := request.head.uuid;
    request.Request? && WellFormed(request.head) && stub.Stub? && stub.obj != MANAGER_OBJECT &&
    u in sys.Of(s).calls && sys.Of(s).calls[u].request == request && free !in sys.Of(s).proxies &&
    request.head.instance in sys.Of(s.Other()).stubs && sys.Of(s.Other()).stubs[request.head.instance] == stub &&
    u !in sys.Of(s).responses
  }

  predicate Runs(sys: System, s: Side, request: Message, stub: Stub, work: Work) {
    request.head.uuid in sys.Of(s.Other()).runs && sys.Of(s.Other()).runs[request.head.uuid] == Run(request, stub, work)
  }

  lemma CallIsPosted(sys: System, s: Side, u: Uuid, k: int, free: int, stub: Stub, interface: Interface, name: Name, arguments: seq<int>) returns (next: System)
    requires k in sys.Of(s).proxies && sys.Of(s).proxies[k].instance in sys.Of(s.Other()).stubs && free !in sys.Of(s).proxies
    requires stub == sys.Of(s.Other()).stubs[sys.Of(s).proxies[k].instance] && stub.Stub? && stub.obj != MANAGER_OBJECT
    requires u.Uuid? && u !in sys.tokens && u !in sys.Of(s).responses && u !in sys.Of(s.Other()).responses
    requires !sys.Of(s).proxies[k].instance.NoId? && !interface.NoInterface? && !name.NoName?
    ensures var request := Request(Header(u, sys.Of(s).proxies[k].instance, interface, name), Invoke(arguments));
            var e := InvokeProxy(s, u, k, interface, name, arguments);
            Goes(sys, e, next) &&
            Waits(next, s, request, stub, free) && Packet(s.Other(), request) in next.net && u !in next.Of(s.Other()).responses
  {
    next := Apply(sys, InvokeProxy(s, u, k, interface, name, arguments));
  }

  lemma CallIsDispatched(sys: System, s: Side, request: Message, stub: Stub, free: int, now: int) returns (next: System)
    requires Waits(sys, s, request, stub, free) && Packet(s.Other(), request) in sys.net
    requires request.head.uuid !in sys.Of(s.Other()).responses
    ensures var e := Deliver(Packet(s.Other(), request), now, now);
            Goes(sys, e, next) &&
            Waits(next, s, request, stub, free) && Runs(next, s, request, stub, Begun)
  {
    next := Apply(sys, Deliver(Packet(s.Other(), request), now, now));
  }

  lemma CallIsExecuted(sys: System, s: Side, request: Message, stub: Stub, free: int, result: Result) returns (next: System)
    requires Waits(sys, s, request, stub, free) && Runs(sys, s, request, stub, Begun) && (result.Reference? ==> result.id.NoId?)
    ensures var e := Execute(s.Other(), request.head.uuid, Answered(result), NoId);
            Goes(sys, e, next) &&
            Waits(next, s, request, stub, free) && Runs(next, s, request, stub, Answered(result))
  {
    next := Apply(sys, Execute(s.Other(), request.head.uuid, Answered(result), NoId));
  }

  lemma CallIsAnswered(sys: System, s: Side, request: Message, stub: Stub, free: int, result: Result) returns (next: System)
    requires Waits(sys, s, request, stub, free) && Runs(sys, s, request, stub, Answered(result))
    ensures var e := Reply(s.Other(), request.head.uuid);
            Goes(sys, e, next) &&
            Waits(next, s, request, stub, free) && Packet(s, Response(request.head, result)) in next.net
  {
    next := Apply(sys, Reply(s.Other(), request.head.uuid));
  }

  lemma AnswerIsStored(sys: System, s: Side, request: Message, stub: Stub, free: int, result: Result, now: int) returns (next: System)
    requires Waits(sys, s, request, stub, free) && Packet(s, Response(request.head, result)) in sys.net
    ensures var e, u := Deliver(Packet(s, Response(request.head, result)), now, now), request.head.uuid;
            Goes(sys, e, next) &&
            u in next.Of(s).responses && next.Of(s).responses[u].message == Response(request.head, result) &&
            Enabled(next, Take(s, u, now, free))
  {
    next := Apply(sys, Deliver(Packet(s, Response(request.head, result)), now, now));
  }

  /** The six steps of a call that gets its answer. */
  function Steps(s: Side, request: Message, k: int, result: Result, free: int, now: int): seq<Event>
    requires request.Request? && request.op.Invoke?
  {
    var h := request.head;
    [InvokeProxy(s, h.uuid, k, h.interface, h.name, request.op.arguments),
     Deliver(Packet(s.Other(), request), now, now),
     Execute(s.Other(), h.uuid, Answered(result), NoId),
     Reply(s.Other(), h.uuid),
     Deliver(Packet(s, Response(h, result)), now, now),
     Take(s, h.uuid, now, free)]
  }

  /** What a call needs: a live proxy, the service at the peer, a well-formed head with a fresh uuid, and a free place for a proxy. */
  predicate CanCall(sys: System, s: Side, request: Message, k: int, free: int) {
    var h, other := request.head, sys.Of(s.Other());
    request.Request? && request.op.Invoke? && k in sys.Of(s).proxies && h.instance == sys.Of(s).proxies[k].instance &&
    h.instance in other.stubs && other.stubs[h.instance].Stub? && other.stubs[h.instance].obj != MANAGER_OBJECT &&
    WellFormed(h) && h.uuid.Uuid? && h.uuid !in sys.tokens && free !in sys.Of(s).proxies
  }

  lemma Asked(sys: System, s: Side, request: Message, k: int, free: int, now: int) returns (a: System, b: System)
    requires CanCall(sys, s, request, k, free)
    requires request.head.uuid !in sys.left.responses && request.head.uuid !in sys.right.responses
    ensures Trace(Goes, [sys, a, b],
                  [InvokeProxy(s, request.head.uuid, k, request.head.interface, request.head.name, request.op.arguments),
                   Deliver(Packet(s.Other(), request), now, now)])
    ensures var stub := sys.Of(s.Other()).stubs[request.head.instance];
            Waits(b, s, request, stub, free) && Runs(b, s, request, stub, Begun)
  {
    var h, stub := request.head, sys.Of(s.Other()).stubs[request.head.instance];
    a := CallIsPosted(sys, s, h.uuid, k, free, stub, h.interface, h.name, request.op.arguments);
    assert request == Request(Header(h.uuid, h.instance, h.interface, h.name), Invoke(request.op.arguments));
    b := CallIsDispatched(a, s, request, stub, free, now);
    TraceTwo(Goes, sys, InvokeProxy(s, h.uuid, k, h.interface, h.name, request.op.arguments), a, Deliver(Packet(s.Other(), request), now, now), b);
  }

  lemma Served(b: System, s: Side, request: Message, stub: Stub, result: Result, free: int) returns (c: System, d: System)
    requires Waits(b, s, request, stub, free) && Runs(b, s, request, stub, Begun) && (result.Reference? ==> result.id.NoId?)
    ensures Trace(Goes, [b, c, d], [Execute(s.Other(), request.head.uuid, Answered(result), NoId), Reply(s.Other(), request.head.uuid)])
    ensures Waits(d, s, request, stub, free) && Packet(s, Response(request.head, result)) in d.net
  {
    c := CallIsExecuted(b, s, request, stub, free, result);
    d := CallIsAnswered(c, s, request, stub, free, result);
    TraceTwo(Goes, b, Execute(s.Other(), request.head.uuid, Answered(result), NoId), c, Reply(s.Other(), request.head.uuid), d);
  }

  lemma Returned(d: System, s: Side, request: Message, stub: Stub, result: Result, free: int, now: int) returns (e: System, f: System)
    requires Waits(d, s, request, stub, free) && Packet(s, Response(request.head, result)) in d.net
    ensures Trace(Goes, [d, e, f], [Deliver(Packet(s, Response(request.head, result)), now, now), Take(s, request.head.uuid, now, free)])
    ensures request.head.uuid in e.Of(s).responses && e.Of(s).responses[request.head.uuid].message == Response(request.head, result)
  {
    e := AnswerIsStored(d, s, request, stub, free, result, now);
    f := Apply(e, Take(s, request.head.uuid, now, free));
    TraceTwo(Goes, d, Deliver(Packet(s, Response(request.head, result)), now, now), e, Take(s, request.head.uuid, now, free), f);
  }

  /**
    At the end of any run, whatever else is in progress, a call of any method on a live proxy whose
    id names a service of the peer can complete with whatever result the service gives: six steps
    prolong the run and end with the `Send` that takes this result.
  */
  lemma CallCanComplete(states: seq<System>, events: seq<Event>, s: Side, request: Message, k: int, result: Result, free: int, now: int)
      returns (more: seq<System>)
    requires IsRun(states, events) && CanCall(states[|events|], s, request, k, free) && (result.Reference? ==> result.id.NoId?)
    ensures |more| == 6 && IsRun(states + more, events + Steps(s, request, k, result, free, now))
    ensures request.head.uuid in more[4].Of(s).responses && more[4].Of(s).responses[request.head.uuid].message == Response(request.head, result)
  {
    var last, steps := states[|events|], Steps(s, request, k, result, free, now);
    var stub := last.Of(s.Other()).stubs[request.head.instance];
    FreshHasNoResponse(states, events, request.head.uuid);
    var a, b := Asked(last, s, request, k, free, now);
    var c, d := Served(b, s, request, stub, result, free);
    var e, f := Returned(d, s, request, stub, result, free, now);
    more := [a, b, c, d, e, f];
    RunIsTrace(states, events);
    TraceSix(Goes, states, events, more, steps);
    TraceIsRun(states + more, events + steps);
  }

  lemma FreshHasNoResponse(states: seq<System>, events: seq<Event>, u: Uuid)
    requires IsRun(states, events) && u !in states[|events|].tokens
    ensures u !in states[|events|].left.responses && u !in states[|events|].right.responses
  {
    RunInv(states, events, |events|);
  }
}
