/**
  Two peers, a channel that reorders and loses messages, and every interleaving of the
  sections of `PsProtocol` run by any number of caller and worker threads.

  Calls in progress (threads inside `Send`) and stub calls in progress (worker threads
  inside `ProcessData`) are part of the state, so a nested remote call made by a stub is an
  ordinary interleaving. Uuids and instance ids are drawn fresh.
*/
module RpcSystem {
  import opened Basics
  import opened PsProtocol

  datatype Side = Left | Right {
    function Other(): Side {
      if Left? then Right else Left
    }
  }

  /** A managed proxy holds the object manager and destroys its instance when it dies. */
  datatype Proxy = Proxy(instance: Id, managed: bool)

  datatype Call = Call(request: Message, managed: bool)

  /** How far a stub call has got: not begun, holding an object to publish, or answered. */
  datatype Work = Begun | Holding(obj: int, interface: Interface) | Answered(result: Result)

  datatype Run = Run(request: Message, stub: Stub, work: Work)

  datatype Peer = Peer(
    stubs: map<Id, Stub>,
    responses: map<Uuid, Stored>,
    calls: map<Uuid, Call>,
    runs: map<Uuid, Run>,
    proxies: map<int, Proxy>)

  datatype Packet = Packet(to: Side, message: Message)

  /** Where the one token of a request uuid was last seen. */
  datatype Phase = Asked | Running | Replied | Kept | Done

  /** Who is responsible for an issued instance id. */
  datatype Claim = Offered(uuid: Uuid) | Held(side: Side, proxy: int) | Dropping(uuid: Uuid) | Dropped | Unowned

  /** The record of one request: who sent it, where its token is, and the computed response. */
  datatype Token = Token(from: Side, request: Message, managed: bool, phase: Phase, answer: Option<Message>)

  /** The record of one issued instance id: where, for which stub, and who is responsible for it. */
  datatype Ref = Ref(side: Side, stub: Stub, claim: Claim)

  datatype Config = Config(timeout: int, registered: set<Interface>)

  /**
    `tokens` and `refs` record everything that was ever sent or issued; no step reads them
    except to draw a fresh id.
  */
  datatype System = System(
    config: Config, left: Peer, right: Peer, net: multiset<Packet>, tokens: map<Uuid, Token>, refs: map<Id, Ref>)
  {
    function Of(s: Side): Peer {
      if s.Left? then left else right
    }

    function From(s: Side): View {
      if s.Left? then View(left, right, net, tokens, refs) else View(right, left, net, tokens, refs)
    }

    function Put(s: Side, v: View): System {
      if s.Left? then System(config, v.me, v.other, v.net, v.tokens, v.refs)
      else System(config, v.other, v.me, v.net, v.tokens, v.refs)
    }
  }

  /** The system as the side that takes a step sees it. */
  datatype View = View(me: Peer, other: Peer, net: multiset<Packet>, tokens: map<Uuid, Token>, refs: map<Id, Ref>)

  function InitPeer(): Peer {
    Peer(map[Bootstrap := Stub(MANAGER_OBJECT, ManagerInterface)], map[], map[], map[], map[])
  }

  predicate Init(sys: System) {
    sys.left == InitPeer() && sys.right == InitPeer() && sys.net == multiset{} &&
    sys.tokens == map[] && sys.refs == map[]
  }

  datatype Event =
    /** A proxy method: `RemoteCall` posts a request. */
    | InvokeProxy(s: Side, uuid: Uuid, proxy: int, interface: Interface, name: Name, arguments: seq<int>)
    /** `CreateObject`, `QueryInterface` or `CloneReference` through the object manager proxy. */
    | AskManager(s: Side, uuid: Uuid, op: Op)
    /** A proxy destructor. */
    | DropProxy(s: Side, proxy: int, uuid: Uuid)
    /** An interface parameter: `PrepareParam` publishes a local object. */
    | Publish(s: Side, id: Id, obj: int, interface: Interface)
    /** `ProcessData` takes a packet off the channel. */
    | Deliver(packet: Packet, stamp: int, now: int)
    /** One section of a stub call; `outcome` and `id` are what the environment supplies. */
    | Execute(s: Side, uuid: Uuid, outcome: Work, id: Id)
    /** The finished stub call posts its response. */
    | Reply(s: Side, uuid: Uuid)
    /** `Send` finds its response; `proxy` is the proxy built from a reference result. */
    | Take(s: Side, uuid: Uuid, now: int, proxy: int)
    /** `Send` times out or sees the connection closed. */
    | GiveUp(s: Side, uuid: Uuid, now: int)
    | Lose(packet: Packet)

  // ---------------------------------------------------------------- steps

  function ManagerRequest(u: Uuid, op: Op): Message {
    Request(Header(u, Bootstrap, ManagerInterface,
                   match op
                   case Create(_, _) => CreateObject
                   case Destroy(_) => DestroyObject
                   case Query(_, _, _) => QueryInterface
                   case Clone(_, _) => CloneReference
                   case Invoke(_) => NoName), op)
  }

  predicate FreshUuid(v: View, u: Uuid) {
    u.Uuid? && u !in v.tokens
  }

  predicate FreshId(v: View, id: Id) {
    id.Generated? && id !in v.refs
  }

  /** A caller thread of side s posts `request` and starts to wait for its uuid. */
  function Post(s: Side, v: View, request: Message, managed: bool): View {
    var u := request.head.uuid;
    View(Peer(v.me.stubs, v.me.responses, v.me.calls[u := Call(request, managed)], v.me.runs, v.me.proxies),
         v.other, v.net + multiset{Packet(s.Other(), request)},
         v.tokens[u := Token(s, request, managed, Asked, None)], v.refs)
  }

  /** `AppendStub`, recording what the id was issued for. */
  function Append(s: Side, v: View, config: Config, id: Id, obj: int, interface: Interface, claim: Claim): View {
    var stub := NewStub(config.registered, obj, interface);
    View(Peer(Insert(v.me.stubs, id, stub), v.me.responses, v.me.calls, v.me.runs, v.me.proxies),
         v.other, v.net, v.tokens, v.refs[id := Ref(s, stub, claim)])
  }

  function Moved(token: Token, phase: Phase): Token {
    Token(token.from, token.request, token.managed, phase, token.answer)
  }

  function SetPhase(tokens: map<Uuid, Token>, u: Uuid, phase: Phase): map<Uuid, Token> {
    if u in tokens then tokens[u := Moved(tokens[u], phase)] else tokens
  }

  function Claimed(ref: Ref, claim: Claim): Ref {
    Ref(ref.side, ref.stub, claim)
  }

  function SetClaim(refs: map<Id, Ref>, id: Id, claim: Claim): map<Id, Ref> {
    if id in refs then refs[id := Claimed(refs[id], claim)] else refs
  }

  predicate IsManagerCall(run: Run) {
    run.request.Request? && run.stub.Stub? && run.stub.obj == MANAGER_OBJECT && run.request.head.interface == ManagerInterface
  }

  /** What the environment may choose for the first section of a stub call. */
  predicate AllowedOutcome(run: Run, stubs: map<Id, Stub>, outcome: Work) {
    !outcome.Begun? && (outcome.Answered? && outcome.result.Reference? ==> outcome.result.id.NoId?) &&
    if !IsManagerCall(run) then true
    else match run.request.op
      case Invoke(_) => outcome == Answered(Thrown)
      case Create(_, target) =>
        outcome == Answered(Thrown) || outcome == Answered(Reference(NoId)) ||
        (!target.NoInterface? && outcome.Holding? && outcome.interface == target)
      case Destroy(id) => outcome == Answered(if id.NoId? || id !in stubs then Thrown else Nothing)
      case Query(id, target, _) =>
        if id !in stubs then outcome == Answered(Thrown)
        else stubs[id].Stub? &&
             (outcome == Answered(Thrown) || outcome == Answered(Reference(NoId)) || (outcome.Holding? && outcome.interface == target))
      case Clone(id, target) =>
        if id !in stubs then outcome == Answered(Thrown)
        else stubs[id].Stub? && outcome == Holding(stubs[id].obj, target)
  }

  predicate Destroys(run: Run) {
    IsManagerCall(run) && run.request.op.Destroy? && !run.request.op.id.NoId?
  }

  /** The checks `RemoteCall` makes on the response it gets. */
  predicate ChecksPass(call: Call, m: Message) {
    m.Response? && m.head.instance == call.request.head.instance &&
    m.head.interface == call.request.head.interface && m.head.name == call.request.head.name
  }

  /** The proxy, if any, that the caller builds from a result. */
  function ProxyFrom(call: Call, m: Message): Option<Proxy> {
    if !ChecksPass(call, m) || !m.result.Reference? || !call.request.Request? then None
    else match call.request.op
      case Create(_, _) => Some(Proxy(m.result.id, true))
      case Destroy(_) => None
      case Query(_, _, _) => if m.result.id.NoId? then None else Some(Proxy(m.result.id, true))
      case Clone(_, _) => Some(Proxy(m.result.id, false))
      case Invoke(_) => if m.result.id.NoId? then None else Some(Proxy(m.result.id, call.managed))
  }

  function Actor(e: Event): Side {
    match e
    case Deliver(packet, _, _) => packet.to
    case Lose(packet) => packet.to
    case _ => e.s
  }

  predicate EnabledAt(v: View, e: Event) {
    match e
    case InvokeProxy(_, u, proxy, _, _, _) => FreshUuid(v, u) && proxy in v.me.proxies
    case AskManager(_, u, op) =>
      FreshUuid(v, u) && !op.Destroy? && !op.Invoke? &&
      (op.Query? ==> exists p :: p in v.me.proxies && v.me.proxies[p] == Proxy(op.id, true))
    case DropProxy(_, proxy, u) => FreshUuid(v, u) && proxy in v.me.proxies
    case Publish(_, id, _, _) => FreshId(v, id)
    case Deliver(packet, _, _) => packet in v.net
    case Execute(_, u, outcome, id) =>
      u in v.me.runs && !v.me.runs[u].work.Answered? &&
      (if v.me.runs[u].work.Holding? then FreshId(v, id) else AllowedOutcome(v.me.runs[u], v.me.stubs, outcome))
    case Reply(_, u) => u in v.me.runs && v.me.runs[u].work.Answered?
    case Take(_, u, _, proxy) => u in v.me.calls && u in v.me.responses && proxy !in v.me.proxies
    case GiveUp(_, u, _) => u in v.me.calls
    case Lose(packet) => packet in v.net
  }

  function Forget(v: View, proxy: int): View {
    View(Peer(v.me.stubs, v.me.responses, v.me.calls, v.me.runs, v.me.proxies - {proxy}),
         v.other, v.net, v.tokens, v.refs)
  }

  function Drop(s: Side, v: View, proxy: int, u: Uuid): View
    requires proxy in v.me.proxies
  {
    var dead := v.me.proxies[proxy];
    if !dead.managed then Forget(v, proxy)
    else
      var asked := Post(s, Forget(v, proxy), ManagerRequest(u, Destroy(dead.instance)), false);
      View(asked.me, asked.other, asked.net, asked.tokens, SetClaim(v.refs, dead.instance, Dropping(u)))
  }

  function Process(v: View, config: Config, packet: Packet, stamp: int, now: int): View
    requires packet in v.net
  {
    var p, m, u := v.me, packet.message, packet.message.head.uuid;
    var net := v.net - multiset{packet};
    match Receive(p.stubs, p.responses, m)
    case StoreIt =>
      View(Peer(p.stubs, Store(p.responses, m, stamp, now, config.timeout), p.calls, p.runs, p.proxies),
           v.other, net, SetPhase(v.tokens, u, Kept), v.refs)
    case Dispatch(stub) =>
      View(Peer(p.stubs, p.responses, p.calls, p.runs[u := Run(m, stub, Begun)], p.proxies),
           v.other, net, SetPhase(v.tokens, u, Running), v.refs)
    case _ => View(p, v.other, net, v.tokens, v.refs)
  }

  /** The work of a stub call after its next section: publish the object it holds, or begin. */
  function NextWork(run: Run, outcome: Work, id: Id): Work {
    if run.work.Holding? then Answered(Reference(id)) else outcome
  }

  function NextStubs(stubs: map<Id, Stub>, registered: set<Interface>, run: Run, id: Id): map<Id, Stub> {
    if run.work.Holding? then Insert(stubs, id, NewStub(registered, run.work.obj, run.work.interface))
    else if Destroys(run) then stubs - {run.request.op.id}
    else stubs
  }

  function NextRefs(s: Side, v: View, registered: set<Interface>, run: Run, u: Uuid, id: Id): map<Id, Ref> {
    if run.work.Holding? then v.refs[id := Ref(s, NewStub(registered, run.work.obj, run.work.interface), Offered(u))]
    else if Destroys(run) && run.request.op.id in v.me.stubs then SetClaim(v.refs, run.request.op.id, Dropped)
    else v.refs
  }

  function Advance(s: Side, v: View, config: Config, u: Uuid, outcome: Work, id: Id): View
    requires u in v.me.runs
  {
    var run := v.me.runs[u];
    var p := Peer(NextStubs(v.me.stubs, config.registered, run, id), v.me.responses, v.me.calls,
                  v.me.runs[u := Run(run.request, run.stub, NextWork(run, outcome, id))], v.me.proxies);
    View(p, v.other, v.net, v.tokens, NextRefs(s, v, config.registered, run, u, id))
  }

  function Answer(run: Run): Message
    requires run.work.Answered?
  {
    Response(run.request.head, run.work.result)
  }

  function AnsweredBy(token: Token, m: Message): Token {
    Token(token.from, token.request, token.managed, Replied, Some(m))
  }

  function Finish(s: Side, v: View, u: Uuid): View
    requires u in v.me.runs && v.me.runs[u].work.Answered?
  {
    var m := Answer(v.me.runs[u]);
    View(Peer(v.me.stubs, v.me.responses, v.me.calls, v.me.runs - {u}, v.me.proxies),
         v.other, v.net + multiset{Packet(s.Other(), m)},
         if u in v.tokens then v.tokens[u := AnsweredBy(v.tokens[u], m)] else v.tokens, v.refs)
  }

  function NextProxies(p: Peer, u: Uuid, proxy: int): map<int, Proxy>
    requires u in p.calls && u in p.responses
  {
    var made := ProxyFrom(p.calls[u], p.responses[u].message);
    if made.None? then p.proxies else p.proxies[proxy := made.value]
  }

  function NextClaims(s: Side, v: View, u: Uuid, proxy: int): map<Id, Ref>
    requires u in v.me.calls && u in v.me.responses
  {
    var made := ProxyFrom(v.me.calls[u], v.me.responses[u].message);
    if made.None? then v.refs
    else SetClaim(v.refs, made.value.instance, if made.value.managed then Held(s, proxy) else Unowned)
  }

  function Collect(s: Side, v: View, config: Config, u: Uuid, now: int, proxy: int): View
    requires u in v.me.calls && u in v.me.responses
  {
    var p := Peer(v.me.stubs, Unexpired(v.me.responses - {u}, now, config.timeout), v.me.calls - {u},
                  v.me.runs, NextProxies(v.me, u, proxy));
    View(p, v.other, v.net, SetPhase(v.tokens, u, Done), NextClaims(s, v, u, proxy))
  }

  function StepAt(s: Side, v: View, config: Config, e: Event): View
    requires EnabledAt(v, e)
  {
    match e
    case InvokeProxy(_, u, proxy, interface, name, arguments) =>
      var p := v.me.proxies[proxy];
      Post(s, v, Request(Header(u, p.instance, interface, name), Invoke(arguments)), p.managed)
    case AskManager(_, u, op) => Post(s, v, ManagerRequest(u, op), false)
    case DropProxy(_, proxy, u) => Drop(s, v, proxy, u)
    case Publish(_, id, obj, interface) => Append(s, v, config, id, obj, interface, Unowned)
    case Deliver(packet, stamp, now) => Process(v, config, packet, stamp, now)
    case Execute(_, u, outcome, id) => Advance(s, v, config, u, outcome, id)
    case Reply(_, u) => Finish(s, v, u)
    case Take(_, u, now, proxy) => Collect(s, v, config, u, now, proxy)
    case GiveUp(_, u, now) =>
      View(Peer(v.me.stubs, Unexpired(v.me.responses, now, config.timeout), v.me.calls - {u}, v.me.runs, v.me.proxies),
           v.other, v.net, v.tokens, v.refs)
    case Lose(packet) => View(v.me, v.other, v.net - multiset{packet}, v.tokens, v.refs)
  }

  predicate Enabled(sys: System, e: Event) {
    EnabledAt(sys.From(Actor(e)), e)
  }

  function Apply(sys: System, e: Event): System
    requires Enabled(sys, e)
  {
    sys.Put(Actor(e), StepAt(Actor(e), sys.From(Actor(e)), sys.config, e))
  }

  // ---------------------------------------------------------------- invariant: one token per uuid

  ghost predicate PacketOk(k: Packet, tokens: map<Uuid, Token>) {
    var u := k.message.head.uuid;
    u in tokens &&
    if k.message.Request? then
      tokens[u].phase == Asked && k == Packet(tokens[u].from.Other(), tokens[u].request)
    else
      tokens[u].phase == Replied && k.to == tokens[u].from && tokens[u].answer == Some(k.message)
  }

  ghost predicate PacketsOk(net: multiset<Packet>, tokens: map<Uuid, Token>) {
    forall k :: k in net ==> net[k] == 1 && PacketOk(k, tokens)
  }

  ghost predicate RunOk(s: Side, u: Uuid, run: Run, tokens: map<Uuid, Token>) {
    u in tokens && tokens[u].phase == Running && tokens[u].from == s.Other() && tokens[u].request == run.request
  }

  ghost predicate ResponseOk(s: Side, u: Uuid, m: Message, tokens: map<Uuid, Token>) {
    u in tokens && tokens[u].phase == Kept && tokens[u].from == s && tokens[u].answer == Some(m)
  }

  ghost predicate CallOk(s: Side, u: Uuid, call: Call, tokens: map<Uuid, Token>) {
    u in tokens && tokens[u].from == s && tokens[u].request == call.request && tokens[u].managed == call.managed
  }

  ghost predicate PeerOk(s: Side, p: Peer, tokens: map<Uuid, Token>) {
    (forall u :: u in p.runs ==> RunOk(s, u, p.runs[u], tokens)) &&
    (forall u :: u in p.responses ==> ResponseOk(s, u, p.responses[u].message, tokens)) &&
    (forall u :: u in p.calls ==> CallOk(s, u, p.calls[u], tokens))
  }

  /** A token carries the request of its own uuid, and an answer to that request once it was replied. */
  ghost predicate TokenOk(u: Uuid, token: Token) {
    token.request.Request? && token.request.head.uuid == u &&
    (token.answer.Some? <==> token.phase in {Replied, Kept, Done}) &&
    (token.answer.Some? ==> token.answer.value.Response? && token.answer.value.head == token.request.head)
  }

  ghost predicate TokensOk(tokens: map<Uuid, Token>) {
    forall u :: u in tokens ==> TokenOk(u, tokens[u])
  }

  ghost predicate TokenInv(s: Side, v: View) {
    PacketsOk(v.net, v.tokens) && TokensOk(v.tokens) && PeerOk(s, v.me, v.tokens) && PeerOk(s.Other(), v.other, v.tokens)
  }

  ghost predicate Absent(p: Peer, u: Uuid) {
    u !in p.runs && u !in p.responses
  }

  /** Moving the token of a uuid that a peer does not hold leaves the peer's tables in order. */
  lemma PeerFrame(s: Side, p: Peer, tokens: map<Uuid, Token>, u: Uuid, token: Token)
    requires PeerOk(s, p, tokens) && Absent(p, u)
    requires u in p.calls ==> CallOk(s, u, p.calls[u], tokens[u := token])
    ensures PeerOk(s, p, tokens[u := token])
  {
  }

  lemma NetFrame(net: multiset<Packet>, tokens: map<Uuid, Token>, u: Uuid, token: Token)
    requires PacketsOk(net, tokens)
    requires forall k :: k in net ==> k.message.head.uuid != u
    ensures PacketsOk(net, tokens[u := token])
  {
    forall k | k in net ensures PacketOk(k, tokens[u := token]) {
      assert PacketOk(k, tokens);
    }
  }

  lemma NetAdd(net: multiset<Packet>, k: Packet, tokens: map<Uuid, Token>)
    requires PacketsOk(net, tokens) && PacketOk(k, tokens) && k !in net
    ensures PacketsOk(net + multiset{k}, tokens)
  {
  }

  lemma NetRemove(net: multiset<Packet>, k: Packet, tokens: map<Uuid, Token>)
    requires PacketsOk(net, tokens) && k in net
    ensures PacketsOk(net - multiset{k}, tokens)
    ensures forall k' :: k' in net - multiset{k} ==> k'.message.head.uuid != k.message.head.uuid
  {
    assert PacketOk(k, tokens);
    forall k' | k' in net - multiset{k} ensures PacketOk(k', tokens) && k'.message.head.uuid != k.message.head.uuid {
      assert k' in net && k' != k;
    }
  }

  /** A uuid whose token is not on the channel is on no packet. */
  lemma NetAbsent(net: multiset<Packet>, tokens: map<Uuid, Token>, u: Uuid)
    requires PacketsOk(net, tokens)
    requires u !in tokens || tokens[u].phase in {Running, Kept, Done}
    ensures forall k :: k in net ==> k.message.head.uuid != u
  {
    forall k | k in net ensures k.message.head.uuid != u {
      assert PacketOk(k, tokens);
    }
  }

  lemma TokenPost(s: Side, v: View, request: Message, managed: bool)
    requires TokenInv(s, v) && request.Request? && FreshUuid(v, request.head.uuid)
    ensures TokenInv(s, Post(s, v, request, managed))
  {
    var u, token := request.head.uuid, Token(s, request, managed, Asked, None);
    NetAbsent(v.net, v.tokens, u);
    NetFrame(v.net, v.tokens, u, token);
    NetAdd(v.net, Packet(s.Other(), request), v.tokens[u := token]);
    PeerFrame(s.Other(), v.other, v.tokens, u, token);
    PeerFrame(s, v.me, v.tokens, u, token);
  }

  lemma TokenProcess(v: View, config: Config, packet: Packet, stamp: int, now: int)
    requires TokenInv(packet.to, v) && packet in v.net
    ensures TokenInv(packet.to, Process(v, config, packet, stamp, now))
  {
    var s, m := packet.to, packet.message;
    assert PacketOk(packet, v.tokens);
    match Receive(v.me.stubs, v.me.responses, m)
    case StoreIt =>
      TokenMoves(v, packet, Kept);
      PeerStore(s, v.me, SetPhase(v.tokens, m.head.uuid, Kept), m, stamp, now, config.timeout);
    case Dispatch(stub) =>
      TokenMoves(v, packet, Running);
      PeerDispatch(s, v.me, SetPhase(v.tokens, m.head.uuid, Running), m, stub);
    case _ => NetRemove(v.net, packet, v.tokens);
  }

  /** A packet comes off the channel: its token moves on, and nothing else refers to it. */
  lemma TokenMoves(v: View, packet: Packet, phase: Phase)
    requires TokenInv(packet.to, v) && packet in v.net
    requires phase == if packet.message.Request? then Running else Kept
    ensures TokenInv(packet.to, View(v.me, v.other, v.net - multiset{packet},
                                     SetPhase(v.tokens, packet.message.head.uuid, phase), v.refs))
  {
    var s, u := packet.to, packet.message.head.uuid;
    assert PacketOk(packet, v.tokens);
    NetRemove(v.net, packet, v.tokens);
    var token := Moved(v.tokens[u], phase);
    NetFrame(v.net - multiset{packet}, v.tokens, u, token);
    PeerFrame(s.Other(), v.other, v.tokens, u, token);
    PeerFrame(s, v.me, v.tokens, u, token);
  }

  lemma PeerStore(s: Side, p: Peer, tokens: map<Uuid, Token>, m: Message, stamp: int, now: int, timeout: int)
    requires PeerOk(s, p, tokens) && ResponseOk(s, m.head.uuid, m, tokens)
    ensures PeerOk(s, p.(responses := Store(p.responses, m, stamp, now, timeout)), tokens)
  {
  }

  lemma PeerDispatch(s: Side, p: Peer, tokens: map<Uuid, Token>, m: Message, stub: Stub)
    requires PeerOk(s, p, tokens) && RunOk(s, m.head.uuid, Run(m, stub, Begun), tokens)
    ensures PeerOk(s, p.(runs := p.runs[m.head.uuid := Run(m, stub, Begun)]), tokens)
  {
  }

  lemma TokenAdvance(s: Side, v: View, config: Config, u: Uuid, outcome: Work, id: Id)
    requires TokenInv(s, v) && u in v.me.runs
    ensures TokenInv(s, Advance(s, v, config, u, outcome, id))
  {
    AdvanceShrinks(s, v, config, u, outcome, id);
    PeerShrink(s, v.me, Advance(s, v, config, u, outcome, id).me, v.tokens);
  }

  lemma AdvanceShrinks(s: Side, v: View, config: Config, u: Uuid, outcome: Work, id: Id)
    requires u in v.me.runs
    ensures var v' := Advance(s, v, config, u, outcome, id);
            PeerShrinks(v.me, v'.me) && v'.other == v.other && v'.net == v.net && v'.tokens == v.tokens
  {
  }

  lemma CollectShrinks(s: Side, v: View, config: Config, u: Uuid, now: int, proxy: int)
    requires u in v.me.calls && u in v.me.responses
    ensures var v' := Collect(s, v, config, u, now, proxy);
            PeerShrinks(v.me, v'.me) && u !in v'.me.calls && u !in v'.me.responses && v'.me.runs == v.me.runs &&
            v'.other == v.other && v'.net == v.net && v'.tokens == SetPhase(v.tokens, u, Done)
  {
  }

  lemma FinishNet(s: Side, v: View, u: Uuid)
    requires TokenInv(s, v) && u in v.me.runs && v.me.runs[u].work.Answered?
    ensures PacketsOk(Finish(s, v, u).net, Finish(s, v, u).tokens)
  {
    assert RunOk(s, u, v.me.runs[u], v.tokens);
    var m := Answer(v.me.runs[u]);
    var token := AnsweredBy(v.tokens[u], m);
    NetAbsent(v.net, v.tokens, u);
    NetFrame(v.net, v.tokens, u, token);
    NetAdd(v.net, Packet(s.Other(), m), v.tokens[u := token]);
  }

  lemma FinishOther(s: Side, v: View, u: Uuid)
    requires TokenInv(s, v) && u in v.me.runs && v.me.runs[u].work.Answered?
    ensures PeerOk(s.Other(), Finish(s, v, u).other, Finish(s, v, u).tokens)
  {
    assert RunOk(s, u, v.me.runs[u], v.tokens);
    PeerFrame(s.Other(), v.other, v.tokens, u, AnsweredBy(v.tokens[u], Answer(v.me.runs[u])));
  }

  lemma FinishMe(s: Side, v: View, u: Uuid)
    requires TokenInv(s, v) && u in v.me.runs && v.me.runs[u].work.Answered?
    ensures PeerOk(s, Finish(s, v, u).me, Finish(s, v, u).tokens)
  {
    assert RunOk(s, u, v.me.runs[u], v.tokens);
    PeerFrame(s, Peer(v.me.stubs, v.me.responses, v.me.calls, v.me.runs - {u}, v.me.proxies), v.tokens, u,
              AnsweredBy(v.tokens[u], Answer(v.me.runs[u])));
  }

  lemma FinishTokens(s: Side, v: View, u: Uuid)
    requires TokenInv(s, v) && u in v.me.runs && v.me.runs[u].work.Answered?
    ensures TokensOk(Finish(s, v, u).tokens)
  {
    assert RunOk(s, u, v.me.runs[u], v.tokens);
  }

  lemma TokenFinish(s: Side, v: View, u: Uuid)
    requires TokenInv(s, v) && u in v.me.runs && v.me.runs[u].work.Answered?
    ensures TokenInv(s, Finish(s, v, u))
  {
    FinishNet(s, v, u);
    FinishOther(s, v, u);
    FinishMe(s, v, u);
    FinishTokens(s, v, u);
  }

  lemma TokenCollect(s: Side, v: View, config: Config, u: Uuid, now: int, proxy: int)
    requires TokenInv(s, v) && u in v.me.calls && u in v.me.responses
    ensures TokenInv(s, Collect(s, v, config, u, now, proxy))
  {
    assert ResponseOk(s, u, v.me.responses[u].message, v.tokens);
    var token := Moved(v.tokens[u], Done);
    NetAbsent(v.net, v.tokens, u);
    NetFrame(v.net, v.tokens, u, token);
    PeerFrame(s.Other(), v.other, v.tokens, u, token);
    var p := Collect(s, v, config, u, now, proxy).me;
    CollectShrinks(s, v, config, u, now, proxy);
    PeerShrink(s, v.me, p, v.tokens);
    PeerFrame(s, p, v.tokens, u, token);
  }

  lemma TokenDrop(s: Side, v: View, proxy: int, u: Uuid)
    requires TokenInv(s, v) && FreshUuid(v, u) && proxy in v.me.proxies
    ensures TokenInv(s, Drop(s, v, proxy, u))
  {
    var dead := v.me.proxies[proxy];
    if dead.managed {
      TokenPost(s, Forget(v, proxy), ManagerRequest(u, Destroy(dead.instance)), false);
    }
  }

  ghost predicate PeerShrinks(p: Peer, p': Peer) {
    (forall u :: u in p'.runs ==> u in p.runs && p'.runs[u].request == p.runs[u].request) &&
    (forall u :: u in p'.calls ==> u in p.calls && p'.calls[u] == p.calls[u]) &&
    (forall u :: u in p'.responses ==> u in p.responses && p'.responses[u] == p.responses[u])
  }

  lemma PeerShrink(s: Side, p: Peer, p': Peer, tokens: map<Uuid, Token>)
    requires PeerOk(s, p, tokens) && PeerShrinks(p, p')
    ensures PeerOk(s, p', tokens)
  {
  }

  lemma TokenStep(s: Side, v: View, config: Config, e: Event)
    requires TokenInv(s, v) && EnabledAt(v, e) && s == Actor(e)
    ensures TokenInv(s, StepAt(s, v, config, e))
  {
    match e
    case InvokeProxy(_, u, proxy, interface, name, arguments) =>
      var p := v.me.proxies[proxy];
      TokenPost(s, v, Request(Header(u, p.instance, interface, name), Invoke(arguments)), p.managed);
    case AskManager(_, u, op) => TokenPost(s, v, ManagerRequest(u, op), false);
    case DropProxy(_, proxy, u) => TokenDrop(s, v, proxy, u);
    case Publish(_, id, obj, interface) =>
    case Deliver(packet, stamp, now) => TokenProcess(v, config, packet, stamp, now);
    case Execute(_, u, outcome, id) => TokenAdvance(s, v, config, u, outcome, id);
    case Reply(_, u) => TokenFinish(s, v, u);
    case Take(_, u, now, proxy) => TokenCollect(s, v, config, u, now, proxy);
    case GiveUp(_, u, now) => PeerShrink(s, v.me, StepAt(s, v, config, e).me, v.tokens);
    case Lose(packet) => NetRemove(v.net, packet, v.tokens);
  }

  // ---------------------------------------------------------------- invariant: one owner per instance id

  ghost predicate Bound(id: Id, side: Side, claim: Claim, refs: map<Id, Ref>) {
    id in refs && refs[id].side == side && refs[id].claim == claim
  }

  ghost predicate ProxyRef(s: Side, k: int, proxy: Proxy, refs: map<Id, Ref>) {
    proxy.managed && !proxy.instance.NoId? ==> Bound(proxy.instance, s.Other(), Held(s, k), refs)
  }

  ghost predicate RunRef(s: Side, u: Uuid, run: Run, refs: map<Id, Ref>) {
    (run.work.Begun? && Destroys(run) ==> Bound(run.request.op.id, s, Dropping(u), refs)) &&
    (run.work.Answered? && run.work.result.Reference? && !run.work.result.id.NoId? ==>
       Bound(run.work.result.id, s, Offered(u), refs))
  }

  ghost predicate TokenRef(u: Uuid, token: Token, refs: map<Id, Ref>) {
    (token.phase == Asked && token.request.Request? && token.request.op.Destroy? && !token.request.op.id.NoId? ==>
       Bound(token.request.op.id, token.from.Other(), Dropping(u), refs)) &&
    (token.phase in {Replied, Kept} && token.answer.Some? && token.answer.value.Response? &&
     token.answer.value.result.Reference? && !token.answer.value.result.id.NoId? ==>
       Bound(token.answer.value.result.id, token.from.Other(), Offered(u), refs))
  }

  ghost predicate StubRef(s: Side, id: Id, stub: Stub, refs: map<Id, Ref>) {
    !id.Bootstrap? ==> id in refs && refs[id].side == s && refs[id].stub == stub
  }

  ghost predicate PeerRef(s: Side, p: Peer, refs: map<Id, Ref>) {
    Bootstrap in p.stubs && p.stubs[Bootstrap] == Stub(MANAGER_OBJECT, ManagerInterface) &&
    (forall id :: id in p.stubs ==> StubRef(s, id, p.stubs[id], refs)) &&
    (forall k :: k in p.proxies ==> ProxyRef(s, k, p.proxies[k], refs)) &&
    (forall u :: u in p.runs ==> RunRef(s, u, p.runs[u], refs)) &&
    (forall id :: id in refs && refs[id].side == s && refs[id].claim != Dropped ==> id in p.stubs)
  }

  ghost predicate RefInv(s: Side, v: View) {
    PeerRef(s, v.me, v.refs) && PeerRef(s.Other(), v.other, v.refs) &&
    (forall u :: u in v.tokens ==> TokenRef(u, v.tokens[u], v.refs)) &&
    (forall id :: id in v.refs ==> id.Generated?)
  }

  /** The claim is not of a proxy or a stub call of peer p. */
  ghost predicate NotMine(s: Side, p: Peer, claim: Claim) {
    match claim
    case Held(side, k) => side != s || k !in p.proxies
    case Offered(u) => u !in p.runs
    case Dropping(u) => u !in p.runs
    case _ => true
  }

  /** Handing an id over, when its claim was not held inside p, leaves p's references in order. */
  lemma PeerRefFrame(s: Side, p: Peer, refs: map<Id, Ref>, id: Id, claim: Claim)
    requires PeerRef(s, p, refs) && id in refs && NotMine(s, p, refs[id].claim)
    requires claim == Dropped ==> refs[id].side != s || refs[id].claim == Dropped || id !in p.stubs
    requires claim != Dropped ==> refs[id].claim != Dropped
    ensures PeerRef(s, p, refs[id := Claimed(refs[id], claim)])
  {
    var after := refs[id := Claimed(refs[id], claim)];
    forall x | x in p.stubs ensures StubRef(s, x, p.stubs[x], after) {
      assert StubRef(s, x, p.stubs[x], refs);
    }
    forall k | k in p.proxies ensures ProxyRef(s, k, p.proxies[k], after) {
      assert ProxyRef(s, k, p.proxies[k], refs);
    }
    forall u | u in p.runs ensures RunRef(s, u, p.runs[u], after) {
      RunRefFrame(s, u, p.runs[u], refs, id, claim);
    }
  }

  lemma RunRefFrame(s: Side, u: Uuid, run: Run, refs: map<Id, Ref>, id: Id, claim: Claim)
    requires RunRef(s, u, run, refs) && id in refs && refs[id].claim != Dropping(u) && refs[id].claim != Offered(u)
    ensures RunRef(s, u, run, refs[id := Claimed(refs[id], claim)])
  {
  }

  lemma PeerRefFresh(s: Side, p: Peer, refs: map<Id, Ref>, id: Id, ref: Ref)
    requires PeerRef(s, p, refs) && id !in refs && ref.side != s
    ensures PeerRef(s, p, refs[id := ref])
  {
  }

  lemma PeerRefIssue(s: Side, p: Peer, refs: map<Id, Ref>, id: Id, ref: Ref)
    requires PeerRef(s, p, refs) && id !in refs && id.Generated? && ref.side == s
    ensures PeerRef(s, Peer(Insert(p.stubs, id, ref.stub), p.responses, p.calls, p.runs, p.proxies), refs[id := ref])
  {
  }

  lemma PeerRefLess(s: Side, p: Peer, p': Peer, refs: map<Id, Ref>)
    requires PeerRef(s, p, refs) && p'.stubs == p.stubs
    requires forall u :: u in p'.runs ==> u in p.runs && p'.runs[u] == p.runs[u]
    requires forall k :: k in p'.proxies ==> k in p.proxies && p'.proxies[k] == p.proxies[k]
    ensures PeerRef(s, p', refs)
  {
  }

  lemma PeerRefRun(s: Side, p: Peer, refs: map<Id, Ref>, u: Uuid, run: Run)
    requires PeerRef(s, p, refs) && RunRef(s, u, run, refs)
    ensures PeerRef(s, Peer(p.stubs, p.responses, p.calls, p.runs[u := run], p.proxies), refs)
  {
  }

  /** Destroying the instance that request u was to destroy. */
  lemma PeerRefDestroy(s: Side, p: Peer, refs: map<Id, Ref>, u: Uuid, id: Id, run: Run)
    requires PeerRef(s, p, refs) && u in p.runs && Bound(id, s, Dropping(u), refs) && id.Generated?
    requires run.work.Answered? && !run.work.result.Reference?
    ensures PeerRef(s, Peer(p.stubs - {id}, p.responses, p.calls, p.runs[u := run], p.proxies),
                    refs[id := Claimed(refs[id], Dropped)])
  {
  }

  lemma TokensRefFrame(tokens: map<Uuid, Token>, refs: map<Id, Ref>, id: Id, claim: Claim)
    requires forall u :: u in tokens ==> TokenRef(u, tokens[u], refs)
    requires id in refs
    requires forall u :: u in tokens && refs[id].claim in {Offered(u), Dropping(u)} ==> tokens[u].phase in {Running, Done}
    ensures forall u :: u in tokens ==> TokenRef(u, tokens[u], refs[id := Claimed(refs[id], claim)])
  {
    forall u | u in tokens ensures TokenRef(u, tokens[u], refs[id := Claimed(refs[id], claim)]) {
      assert TokenRef(u, tokens[u], refs);
    }
  }

  lemma RefPost(s: Side, v: View, request: Message, managed: bool)
    requires RefInv(s, v) && TokenRef(request.head.uuid, Token(s, request, managed, Asked, None), v.refs)
    ensures RefInv(s, Post(s, v, request, managed))
  {
    PeerRefLess(s, v.me, Post(s, v, request, managed).me, v.refs);
  }

  lemma RefDrop(s: Side, v: View, proxy: int, u: Uuid)
    requires RefInv(s, v) && FreshUuid(v, u) && proxy in v.me.proxies
    ensures RefInv(s, Drop(s, v, proxy, u))
  {
    var dead, gone := v.me.proxies[proxy], Forget(v, proxy);
    PeerRefLess(s, v.me, gone.me, v.refs);
    if dead.managed {
      assert ProxyRef(s, proxy, dead, v.refs);
      var refs := SetClaim(v.refs, dead.instance, Dropping(u));
      if dead.instance in v.refs && !dead.instance.NoId? {
        PeerRefFrame(s, gone.me, v.refs, dead.instance, Dropping(u));
        PeerRefFrame(s.Other(), v.other, v.refs, dead.instance, Dropping(u));
        TokensRefFrame(v.tokens, v.refs, dead.instance, Dropping(u));
      }
      RefPost(s, View(gone.me, v.other, v.net, v.tokens, refs), ManagerRequest(u, Destroy(dead.instance)), false);
    }
  }

  lemma RefPublish(s: Side, v: View, config: Config, id: Id, obj: int, interface: Interface, claim: Claim)
    requires RefInv(s, v) && FreshId(v, id)
    ensures RefInv(s, Append(s, v, config, id, obj, interface, claim))
  {
    var ref := Ref(s, NewStub(config.registered, obj, interface), claim);
    PeerRefIssue(s, v.me, v.refs, id, ref);
    PeerRefFresh(s.Other(), v.other, v.refs, id, ref);
    forall u | u in v.tokens ensures TokenRef(u, v.tokens[u], v.refs[id := ref]) {
      assert TokenRef(u, v.tokens[u], v.refs);
    }
  }

  lemma RefProcess(v: View, config: Config, packet: Packet, stamp: int, now: int)
    requires RefInv(packet.to, v) && packet in v.net && PacketOk(packet, v.tokens)
    ensures RefInv(packet.to, Process(v, config, packet, stamp, now))
  {
    var s, u, m := packet.to, packet.message.head.uuid, packet.message;
    assert TokenRef(u, v.tokens[u], v.refs);
    match Receive(v.me.stubs, v.me.responses, m)
    case StoreIt =>
      PeerRefLess(s, v.me, Process(v, config, packet, stamp, now).me, v.refs);
    case Dispatch(stub) =>
      assert RunRef(s, u, Run(m, stub, Begun), v.refs);
      PeerRefRun(s, v.me, v.refs, u, Run(m, stub, Begun));
    case _ =>
  }

  lemma RefAdvance(s: Side, v: View, config: Config, u: Uuid, outcome: Work, id: Id)
    requires RefInv(s, v) && EnabledAt(v, Execute(s, u, outcome, id))
    requires RunOk(s, u, v.me.runs[u], v.tokens) && u !in v.other.runs
    ensures RefInv(s, Advance(s, v, config, u, outcome, id))
  {
    var run := v.me.runs[u];
    assert RunRef(s, u, run, v.refs);
    var run' := Run(run.request, run.stub, NextWork(run, outcome, id));
    if run.work.Holding? {
      var w := Append(s, v, config, id, run.work.obj, run.work.interface, Offered(u));
      RefPublish(s, v, config, id, run.work.obj, run.work.interface, Offered(u));
      PeerRefRun(s, w.me, w.refs, u, run');
    } else if Destroys(run) {
      RefDestroy(s, v, u, run');
    } else {
      PeerRefRun(s, v.me, v.refs, u, run');
    }
  }

  lemma RefDestroy(s: Side, v: View, u: Uuid, run': Run)
    requires RefInv(s, v) && u in v.me.runs && Destroys(v.me.runs[u]) && v.me.runs[u].work.Begun? && u !in v.other.runs
    requires RunOk(s, u, v.me.runs[u], v.tokens) && run'.work.Answered? && !run'.work.result.Reference?
    requires run'.request == v.me.runs[u].request && run'.stub == v.me.runs[u].stub
    ensures var gone := v.me.runs[u].request.op.id;
            RefInv(s, View(Peer(v.me.stubs - {gone}, v.me.responses, v.me.calls, v.me.runs[u := run'], v.me.proxies),
                           v.other, v.net, v.tokens, if gone in v.me.stubs then SetClaim(v.refs, gone, Dropped) else v.refs))
  {
    assert RunRef(s, u, v.me.runs[u], v.refs);
    var gone := v.me.runs[u].request.op.id;
    PeerRefDestroy(s, v.me, v.refs, u, gone, run');
    PeerRefFrame(s.Other(), v.other, v.refs, gone, Dropped);
    TokensRefFrame(v.tokens, v.refs, gone, Dropped);
  }

  lemma RefFinish(s: Side, v: View, u: Uuid)
    requires RefInv(s, v) && u in v.me.runs && v.me.runs[u].work.Answered? && RunOk(s, u, v.me.runs[u], v.tokens)
    ensures RefInv(s, Finish(s, v, u))
  {
    assert RunRef(s, u, v.me.runs[u], v.refs);
    PeerRefLess(s, v.me, Finish(s, v, u).me, v.refs);
  }

  lemma RefCollect(s: Side, v: View, config: Config, u: Uuid, now: int, proxy: int)
    requires RefInv(s, v) && u in v.me.calls && u in v.me.responses && proxy !in v.me.proxies
    requires ResponseOk(s, u, v.me.responses[u].message, v.tokens) && u !in v.me.runs && u !in v.other.runs
    ensures RefInv(s, Collect(s, v, config, u, now, proxy))
  {
    var tokens := SetPhase(v.tokens, u, Done);
    assert TokenRef(u, v.tokens[u], v.refs);
    assert forall w :: w in tokens ==> TokenRef(w, tokens[w], v.refs);
    var bare := Peer(v.me.stubs, Unexpired(v.me.responses - {u}, now, config.timeout), v.me.calls - {u},
                     v.me.runs, v.me.proxies);
    PeerRefLess(s, v.me, bare, v.refs);
    var made := ProxyFrom(v.me.calls[u], v.me.responses[u].message);
    if made.Some? {
      RefHand(s, View(bare, v.other, v.net, tokens, v.refs), u, made.value, proxy);
    }
  }

  /** The caller becomes the owner of the reference its call was offered. */
  lemma RefHand(s: Side, v: View, u: Uuid, made: Proxy, k: int)
    requires RefInv(s, v) && k !in v.me.proxies && u !in v.me.runs && u !in v.other.runs
    requires u in v.tokens && v.tokens[u].phase == Done
    requires !made.instance.NoId? ==> Bound(made.instance, s.Other(), Offered(u), v.refs)
    ensures RefInv(s, View(Peer(v.me.stubs, v.me.responses, v.me.calls, v.me.runs, v.me.proxies[k := made]), v.other, v.net,
                           v.tokens, SetClaim(v.refs, made.instance, if made.managed then Held(s, k) else Unowned)))
  {
    var id, claim := made.instance, if made.managed then Held(s, k) else Unowned;
    if !id.NoId? {
      PeerRefFrame(s, v.me, v.refs, id, claim);
      PeerRefFrame(s.Other(), v.other, v.refs, id, claim);
      TokensRefFrame(v.tokens, v.refs, id, claim);
    }
    PeerRefProxy(s, v.me, SetClaim(v.refs, id, claim), k, made);
  }

  lemma PeerRefProxy(s: Side, p: Peer, refs: map<Id, Ref>, k: int, proxy: Proxy)
    requires PeerRef(s, p, refs) && ProxyRef(s, k, proxy, refs)
    ensures PeerRef(s, Peer(p.stubs, p.responses, p.calls, p.runs, p.proxies[k := proxy]), refs)
  {
  }

  /** The token of u is in one place only. */
  lemma OnlyHere(s: Side, v: View, u: Uuid)
    requires TokenInv(s, v)
    ensures u in v.me.runs ==> RunOk(s, u, v.me.runs[u], v.tokens) && u !in v.other.runs
    ensures u in v.me.responses ==>
              ResponseOk(s, u, v.me.responses[u].message, v.tokens) && u !in v.me.runs && u !in v.other.runs
  {
    assert u in v.me.runs ==> RunOk(s, u, v.me.runs[u], v.tokens);
    assert u in v.other.runs ==> RunOk(s.Other(), u, v.other.runs[u], v.tokens);
    assert u in v.me.responses ==> ResponseOk(s, u, v.me.responses[u].message, v.tokens);
  }

  lemma RefStep(s: Side, v: View, config: Config, e: Event)
    requires TokenInv(s, v) && RefInv(s, v) && EnabledAt(v, e) && s == Actor(e)
    ensures RefInv(s, StepAt(s, v, config, e))
  {
    match e
    case InvokeProxy(_, u, proxy, interface, name, arguments) =>
      var p := v.me.proxies[proxy];
      RefPost(s, v, Request(Header(u, p.instance, interface, name), Invoke(arguments)), p.managed);
    case AskManager(_, u, op) => RefPost(s, v, ManagerRequest(u, op), false);
    case DropProxy(_, proxy, u) => RefDrop(s, v, proxy, u);
    case Publish(_, id, obj, interface) => RefPublish(s, v, config, id, obj, interface, Unowned);
    case Deliver(packet, stamp, now) => RefProcess(v, config, packet, stamp, now);
    case Execute(_, u, outcome, id) =>
      OnlyHere(s, v, u);
      RefAdvance(s, v, config, u, outcome, id);
    case Reply(_, u) =>
      OnlyHere(s, v, u);
      RefFinish(s, v, u);
    case Take(_, u, now, proxy) =>
      OnlyHere(s, v, u);
      RefCollect(s, v, config, u, now, proxy);
    case GiveUp(_, u, now) => PeerRefLess(s, v.me, StepAt(s, v, config, e).me, v.refs);
    case Lose(packet) =>
  }

  // ---------------------------------------------------------------- runs

  ghost predicate Inv(sys: System) {
    TokenInv(Left, sys.From(Left)) && RefInv(Left, sys.From(Left))
  }

  lemma InvStep(sys: System, e: Event)
    requires Inv(sys) && Enabled(sys, e)
    ensures Inv(Apply(sys, e))
  {
    var s := Actor(e);
    InvEitherSide(sys, s);
    TokenStep(s, sys.From(s), sys.config, e);
    RefStep(s, sys.From(s), sys.config, e);
    InvPut(sys, s, StepAt(s, sys.From(s), sys.config, e));
  }

  lemma InvPut(sys: System, s: Side, v: View)
    requires TokenInv(s, v) && RefInv(s, v)
    ensures Inv(sys.Put(s, v))
  {
    InvEitherSide(sys.Put(s, v), s);
  }

  /** The invariant does not depend on which side looks. */
  lemma InvEitherSide(sys: System, s: Side)
    ensures Inv(sys) <==> TokenInv(s, sys.From(s)) && RefInv(s, sys.From(s))
  {
  }

  /** states[i+1] is states[i] after events[i], from the initial state. */
  ghost predicate IsRun(states: seq<System>, events: seq<Event>) {
    |states| == |events| + 1 && Init(states[0]) &&
    forall i :: 0 <= i < |events| ==> Enabled(states[i], events[i]) && states[i + 1] == Apply(states[i], events[i])
  }

  lemma {:induction false} RunInv(states: seq<System>, events: seq<Event>, n: nat)
    requires IsRun(states, events) && n < |states|
    ensures Inv(states[n])
  {
    if n > 0 {
      RunInv(states, events, n - 1);
      InvStep(states[n - 1], events[n - 1]);
    }
  }
}
