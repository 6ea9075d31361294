/** What holds in every run of `RpcSystem`. */
module RpcRuns {
  import opened Basics
  import opened PsProtocol
  import opened RpcSystem

  // ---------------------------------------------------------------- facts at one moment of a run

  lemma PacketAt(states: seq<System>, events: seq<Event>, n: nat, k: Packet)
    requires IsRun(states, events) && n < |states| && k in states[n].net
    ensures PacketOk(k, states[n].tokens)
  {
    RunInv(states, events, n);
  }

  lemma RunAt(states: seq<System>, events: seq<Event>, n: nat, s: Side, u: Uuid)
    requires IsRun(states, events) && n < |states| && u in states[n].Of(s).runs
    ensures RunOk(s, u, states[n].Of(s).runs[u], states[n].tokens)
    ensures RunRef(s, u, states[n].Of(s).runs[u], states[n].refs)
  {
    RunInv(states, events, n);
    InvEitherSide(states[n], s);
  }

  lemma ResponseAt(states: seq<System>, events: seq<Event>, n: nat, s: Side, u: Uuid)
    requires IsRun(states, events) && n < |states| && u in states[n].Of(s).responses
    ensures ResponseOk(s, u, states[n].Of(s).responses[u].message, states[n].tokens)
    ensures TokenOk(u, states[n].tokens[u]) && TokenRef(u, states[n].tokens[u], states[n].refs)
    ensures u in states[n].Of(s).calls ==> CallOk(s, u, states[n].Of(s).calls[u], states[n].tokens)
  {
    RunInv(states, events, n);
    InvEitherSide(states[n], s);
  }

  lemma ProxyAt(states: seq<System>, events: seq<Event>, n: nat, s: Side, k: int)
    requires IsRun(states, events) && n < |states| && k in states[n].Of(s).proxies
    ensures ProxyRef(s, k, states[n].Of(s).proxies[k], states[n].refs)
  {
    RunInv(states, events, n);
    InvEitherSide(states[n], s);
  }

  lemma StubsAt(states: seq<System>, events: seq<Event>, n: nat, s: Side, id: Id)
    requires IsRun(states, events) && n < |states|
    ensures Bootstrap in states[n].Of(s).stubs && states[n].Of(s).stubs[Bootstrap] == Stub(MANAGER_OBJECT, ManagerInterface)
    ensures id in states[n].Of(s).stubs ==> StubRef(s, id, states[n].Of(s).stubs[id], states[n].refs)
    ensures id in states[n].refs && states[n].refs[id].side == s && states[n].refs[id].claim != Dropped ==>
              id in states[n].Of(s).stubs
  {
    RunInv(states, events, n);
    InvEitherSide(states[n], s);
  }

  // ---------------------------------------------------------------- one step of a run

  predicate RepliesTo(sys: System, e: Event, u: Uuid) {
    e.Reply? && e.uuid == u && u in sys.Of(e.s).runs && sys.Of(e.s).runs[u].work.Answered?
  }

  ghost predicate SameToken(before: Token, after: Token) {
    after.from == before.from && after.request == before.request && after.managed == before.managed &&
    (before.phase == Done ==> after.phase == Done)
  }

  /** A step keeps sender and request of a token, and its answer unless the step replies to it. */
  lemma TokenKept(states: seq<System>, events: seq<Event>, n: nat, u: Uuid)
    requires IsRun(states, events) && n < |events| && u in states[n].tokens
    ensures u in states[n + 1].tokens && SameToken(states[n].tokens[u], states[n + 1].tokens[u])
    ensures RepliesTo(states[n], events[n], u) ==>
              states[n + 1].tokens[u].answer == Some(Answer(states[n].Of(events[n].s).runs[u]))
    ensures !RepliesTo(states[n], events[n], u) ==> states[n + 1].tokens[u].answer == states[n].tokens[u].answer
  {
    var e, v := events[n], states[n].From(Actor(events[n]));
    if e.Deliver? {
      PacketAt(states, events, n, e.packet);
    } else if e.Reply? {
      RunAt(states, events, n, e.s, e.uuid);
    }
    TokenKeptAt(Actor(e), v, states[n].config, e, u);
  }

  lemma TokenKeptAt(s: Side, v: View, config: Config, e: Event, u: Uuid)
    requires EnabledAt(v, e) && s == Actor(e) && u in v.tokens
    requires e.Deliver? ==> PacketOk(e.packet, v.tokens)
    requires e.Reply? ==> RunOk(s, e.uuid, v.me.runs[e.uuid], v.tokens)
    ensures var w := StepAt(s, v, config, e);
            u in w.tokens && SameToken(v.tokens[u], w.tokens[u]) &&
            (if e.Reply? && e.uuid == u then w.tokens[u].answer == Some(Answer(v.me.runs[u]))
             else w.tokens[u].answer == v.tokens[u].answer)
  {
    match e
    case Deliver(packet, stamp, now) => ProcessKeeps(v, config, packet, stamp, now, u);
    case Reply(_, w) => FinishKeeps(s, v, w, u);
    case DropProxy(_, proxy, w) => DropKeeps(s, v, proxy, w, u);
    case _ =>
  }

  lemma ProcessKeeps(v: View, config: Config, packet: Packet, stamp: int, now: int, u: Uuid)
    requires packet in v.net && PacketOk(packet, v.tokens) && u in v.tokens
    ensures var w := Process(v, config, packet, stamp, now);
            u in w.tokens && SameToken(v.tokens[u], w.tokens[u]) && w.tokens[u].answer == v.tokens[u].answer
  {
  }

  lemma FinishKeeps(s: Side, v: View, replied: Uuid, u: Uuid)
    requires replied in v.me.runs && v.me.runs[replied].work.Answered? && u in v.tokens
    requires RunOk(s, replied, v.me.runs[replied], v.tokens)
    ensures var w := Finish(s, v, replied);
            u in w.tokens && SameToken(v.tokens[u], w.tokens[u]) &&
            w.tokens[u].answer == if u == replied then Some(Answer(v.me.runs[u])) else v.tokens[u].answer
  {
  }

  lemma DropKeeps(s: Side, v: View, proxy: int, drawn: Uuid, u: Uuid)
    requires proxy in v.me.proxies && FreshUuid(v, drawn) && u in v.tokens
    ensures var w := Drop(s, v, proxy, drawn);
            u in w.tokens && w.tokens[u] == v.tokens[u]
  {
  }

  /** A step that creates the record of a request gives it no answer yet. */
  lemma TokenBorn(sys: System, e: Event, u: Uuid)
    requires Enabled(sys, e) && u !in sys.tokens && u in Apply(sys, e).tokens
    ensures Apply(sys, e).tokens[u].answer.None?
  {
    TokenBornAt(Actor(e), sys.From(Actor(e)), sys.config, e, u);
  }

  lemma TokenBornAt(s: Side, v: View, config: Config, e: Event, u: Uuid)
    requires EnabledAt(v, e) && u !in v.tokens
    ensures u in StepAt(s, v, config, e).tokens ==> StepAt(s, v, config, e).tokens[u].answer.None?
  {
    match e
    case Deliver(packet, stamp, now) => assert Process(v, config, packet, stamp, now).tokens.Keys == v.tokens.Keys;
    case Execute(_, w, outcome, id) => assert Advance(s, v, config, w, outcome, id).tokens == v.tokens;
    case Take(_, w, now, proxy) => assert Collect(s, v, config, w, now, proxy).tokens.Keys == v.tokens.Keys;
    case _ =>
  }

  /** Side and stub of an issued id never change, and a destroyed id stays destroyed. */
  ghost predicate SameRef(before: Ref, after: Ref) {
    after.side == before.side && after.stub == before.stub && (before.claim == Dropped ==> after.claim == Dropped)
  }

  lemma RefKept(states: seq<System>, events: seq<Event>, n: nat, id: Id)
    requires IsRun(states, events) && n < |events| && id in states[n].refs
    ensures id in states[n + 1].refs && SameRef(states[n].refs[id], states[n + 1].refs[id])
  {
    var e, v := events[n], states[n].From(Actor(events[n]));
    if e.DropProxy? {
      ProxyAt(states, events, n, e.s, e.proxy);
    } else if e.Execute? {
      RunAt(states, events, n, e.s, e.uuid);
    } else if e.Take? {
      ResponseAt(states, events, n, e.s, e.uuid);
    }
    BootstrapNotIssued(states, events, n);
    RefKeptAt(Actor(e), v, states[n].config, e, id);
  }

  lemma RefKeptAt(s: Side, v: View, config: Config, e: Event, id: Id)
    requires EnabledAt(v, e) && s == Actor(e) && id in v.refs && NoId !in v.refs
    requires e.DropProxy? ==> ProxyRef(s, e.proxy, v.me.proxies[e.proxy], v.refs)
    requires e.Execute? ==> RunRef(s, e.uuid, v.me.runs[e.uuid], v.refs)
    requires e.Take? ==> ResponseOk(s, e.uuid, v.me.responses[e.uuid].message, v.tokens) &&
                         TokenRef(e.uuid, v.tokens[e.uuid], v.refs)
    ensures var w := StepAt(s, v, config, e);
            id in w.refs && SameRef(v.refs[id], w.refs[id])
  {
  }

  // ---------------------------------------------------------------- calls

  /** In state `sys`, event `e` is the peer's reply to u with the answer of `token`. */
  predicate Computed(sys: System, e: Event, token: Token, u: Uuid) {
    e == Reply(token.from.Other(), u) && RepliesTo(sys, e, u) &&
    sys.Of(e.s).runs[u].request == token.request && token.answer == Some(Answer(sys.Of(e.s).runs[u]))
  }

  /** An answer on record was computed by a stub call of the peer, for the very request on record. */
  lemma {:induction false} AnswerOrigin(states: seq<System>, events: seq<Event>, n: nat, u: Uuid)
    requires IsRun(states, events) && n < |states|
    requires u in states[n].tokens && states[n].tokens[u].answer.Some?
    ensures exists j :: 0 <= j < n && Computed(states[j], events[j], states[n].tokens[u], u)
  {
    var before, e := states[n - 1], events[n - 1];
    if u !in before.tokens {
      TokenBorn(before, e, u);
    } else {
      TokenKept(states, events, n - 1, u);
      if RepliesTo(before, e, u) {
        RunAt(states, events, n - 1, e.s, u);
        assert Computed(before, e, states[n].tokens[u], u);
      } else {
        AnswerOrigin(states, events, n - 1, u);
        var j :| 0 <= j < n - 1 && Computed(states[j], events[j], before.tokens[u], u);
        assert Computed(states[j], events[j], states[n].tokens[u], u);
      }
    }
  }

  /**
    A `Send` that returns gives its caller exactly the response that the peer's stub computed
    for that request, earlier in the run; and every check of `RemoteCall` on it succeeds.
  */
  lemma SendReturnsComputedResponse(states: seq<System>, events: seq<Event>, n: nat)
    requires IsRun(states, events) && n < |events| && events[n].Take?
    ensures var s, u := events[n].s, events[n].uuid;
            var call, m := states[n].Of(s).calls[u], states[n].Of(s).responses[u].message;
            ChecksPass(call, m) && m.head.uuid == call.request.head.uuid == u &&
            exists j :: 0 <= j < n && events[j] == Reply(s.Other(), u) && RepliesTo(states[j], events[j], u) &&
                        states[j].Of(s.Other()).runs[u].request == call.request &&
                        m == Answer(states[j].Of(s.Other()).runs[u])
  {
    var s, u := events[n].s, events[n].uuid;
    ResponseAt(states, events, n, s, u);
    AnswerOrigin(states, events, n, u);
    var j :| 0 <= j < n && Computed(states[j], events[j], states[n].tokens[u], u);
  }

  lemma {:induction false} DoneStays(states: seq<System>, events: seq<Event>, i: nat, j: nat, u: Uuid)
    requires IsRun(states, events) && i <= j < |states|
    requires u in states[i].tokens && states[i].tokens[u].phase == Done
    ensures u in states[j].tokens && states[j].tokens[u].phase == Done
  {
    if i < j {
      DoneStays(states, events, i, j - 1, u);
      DoneKept(states, events, j - 1, u);
    }
  }

  lemma DoneKept(states: seq<System>, events: seq<Event>, n: nat, u: Uuid)
    requires IsRun(states, events) && n < |events| && u in states[n].tokens && states[n].tokens[u].phase == Done
    ensures u in states[n + 1].tokens && states[n + 1].tokens[u].phase == Done
  {
    TokenKept(states, events, n, u);
  }

  /** Each response is consumed at most once in a whole run. */
  lemma ResponseTakenOnce(states: seq<System>, events: seq<Event>, i: nat, j: nat)
    requires IsRun(states, events) && i < |events| && j < |events|
    requires events[i].Take? && events[j].Take? && events[i].uuid == events[j].uuid
    ensures i == j
  {
    var first, last := if i < j then i else j, if i < j then j else i;
    ResponseAt(states, events, first, events[first].s, events[first].uuid);
    ResponseAt(states, events, last, events[last].s, events[last].uuid);
    if first < last {
      DoneStays(states, events, first + 1, last, events[i].uuid);
    }
  }

  /** No delivered request is rejected as "not unique", and no delivered response meets one with its uuid. */
  lemma UuidsNeverCollide(states: seq<System>, events: seq<Event>, n: nat)
    requires IsRun(states, events) && n < |events| && events[n].Deliver?
    ensures var packet := events[n].packet;
            var p := states[n].Of(packet.to);
            Receive(p.stubs, p.responses, packet.message) != NotUnique &&
            packet.message.head.uuid !in p.responses && packet.message.head.uuid !in p.runs
  {
    var packet := events[n].packet;
    var p, u := states[n].Of(packet.to), packet.message.head.uuid;
    PacketAt(states, events, n, packet);
    if u in p.responses {
      ResponseAt(states, events, n, packet.to, u);
    }
    if u in p.runs {
      RunAt(states, events, n, packet.to, u);
    }
  }

  // ---------------------------------------------------------------- references

  lemma {:induction false} RefFixed(states: seq<System>, events: seq<Event>, i: nat, j: nat, id: Id)
    requires IsRun(states, events) && i <= j < |states| && id in states[i].refs
    ensures id in states[j].refs && SameRef(states[i].refs[id], states[j].refs[id])
  {
    if i < j {
      RefFixed(states, events, i, j - 1, id);
      RefStays(states, events, i, j - 1, id);
    }
  }

  lemma RefStays(states: seq<System>, events: seq<Event>, i: nat, n: nat, id: Id)
    requires IsRun(states, events) && i <= n < |events| && id in states[i].refs && id in states[n].refs
    requires SameRef(states[i].refs[id], states[n].refs[id])
    ensures id in states[n + 1].refs && SameRef(states[i].refs[id], states[n + 1].refs[id])
  {
    RefKept(states, events, n, id);
  }

  /**
    At every moment n of a run, a live proxy that holds the object manager and has a non-empty id
    names an entry of the peer's table; that entry is the stub the id was issued for, at
    whatever earlier moment i it was on record; and no other such proxy has the same id.
  */
  lemma LiveProxyIsBound(states: seq<System>, events: seq<Event>, i: nat, n: nat, s: Side, k: int)
    requires IsRun(states, events) && i <= n < |states| && k in states[n].Of(s).proxies
    requires states[n].Of(s).proxies[k].managed && !states[n].Of(s).proxies[k].instance.NoId?
    ensures var id := states[n].Of(s).proxies[k].instance;
            id in states[n].Of(s.Other()).stubs && id in states[n].refs &&
            states[n].Of(s.Other()).stubs[id] == states[n].refs[id].stub &&
            (id in states[i].refs ==> states[n].Of(s.Other()).stubs[id] == states[i].refs[id].stub) &&
            forall k' :: k' in states[n].Of(s).proxies && k' != k && states[n].Of(s).proxies[k'].managed ==>
                           states[n].Of(s).proxies[k'].instance != id
  {
    var p := states[n].Of(s);
    var id := p.proxies[k].instance;
    ProxyAt(states, events, n, s, k);
    StubsAt(states, events, n, s.Other(), id);
    if id in states[i].refs {
      RefFixed(states, events, i, n, id);
    }
    forall k' | k' in p.proxies && k' != k && p.proxies[k'].managed ensures p.proxies[k'].instance != id {
      ProxyAt(states, events, n, s, k');
    }
    BootstrapNotIssued(states, events, n);
  }

  lemma BootstrapNotIssued(states: seq<System>, events: seq<Event>, n: nat)
    requires IsRun(states, events) && n < |states|
    ensures Bootstrap !in states[n].refs && NoId !in states[n].refs
  {
    RunInv(states, events, n);
  }

  /** The object manager of either side is reachable under the bootstrap id at every moment. */
  lemma BootstrapNeverRemoved(states: seq<System>, events: seq<Event>, n: nat, s: Side)
    requires IsRun(states, events) && n < |states|
    ensures Bootstrap in states[n].Of(s).stubs &&
            states[n].Of(s).stubs[Bootstrap] == Stub(MANAGER_OBJECT, ManagerInterface)
  {
    StubsAt(states, events, n, s, Bootstrap);
  }

  /** Event e executes `DestroyObject` for a non-empty id. */
  predicate DestroyStep(sys: System, e: Event) {
    e.Execute? && e.uuid in sys.Of(e.s).runs && sys.Of(e.s).runs[e.uuid].work.Begun? && Destroys(sys.Of(e.s).runs[e.uuid])
  }

  function DestroyedId(sys: System, e: Event): Id
    requires DestroyStep(sys, e)
  {
    sys.Of(e.s).runs[e.uuid].request.op.id
  }

  /** `DestroyObject` always finds its instance, and marks it destroyed. */
  lemma DestroyFinds(states: seq<System>, events: seq<Event>, n: nat)
    requires IsRun(states, events) && n < |events| && DestroyStep(states[n], events[n])
    ensures var id := DestroyedId(states[n], events[n]);
            id in states[n].Of(events[n].s).stubs && id in states[n].refs && id in states[n + 1].refs &&
            states[n].refs[id].claim != Dropped && states[n + 1].refs[id].claim == Dropped
  {
    RunAt(states, events, n, events[n].s, events[n].uuid);
    StubsAt(states, events, n, events[n].s, DestroyedId(states[n], events[n]));
  }

  /** No id is destroyed twice in a run. */
  lemma DestroyedOnce(states: seq<System>, events: seq<Event>, i: nat, j: nat)
    requires IsRun(states, events) && i < |events| && j < |events|
    requires DestroyStep(states[i], events[i]) && DestroyStep(states[j], events[j])
    requires DestroyedId(states[i], events[i]) == DestroyedId(states[j], events[j])
    ensures i == j
  {
    DestroyFinds(states, events, i);
    DestroyFinds(states, events, j);
    var id := DestroyedId(states[i], events[i]);
    if i < j {
      RefFixed(states, events, i + 1, j, id);
    } else if j < i {
      RefFixed(states, events, j + 1, i, id);
    }
  }
}
