/**
  The pipeline of clients between a socket and the RPC peer, and what two such pipelines do to
  messages. Clients are values here: a chain is the list of its holders, each with the state
  of its client.
*/
module Chain {
  import opened Basics
  import opened Framing
  import NetClient

  /** gzip, of which only losslessness and non-empty output matter. */
  datatype Codec = Codec(zip: Bytes -> Bytes, unzip: Bytes -> Bytes) {
    ghost predicate Lossless() {
      forall m: Bytes :: zip(m) != [] && unzip(zip(m)) == m
    }
  }

  datatype Kind =
    | FrameReaderClient(buffer: Bytes)
    | ParallelClient(queue: seq<Bytes>)
    | UnzipClient
    | RpcClient(inbox: seq<Bytes>)
    | ZipClient
    | FrameWriterClient

  datatype Client = Client(closed: bool, kind: Kind)

  /** The linked list that `CreateChain` builds; `End` is the `ChainClient` that leaves the chain. */
  datatype Holder = End | Holder(client: Client, next: Holder)

  /** `CreateChain`: the tail is built first, then the holder that points to it. */
  function CreateChain(kinds: seq<Kind>, prev: Holder): Holder {
    if kinds == [] then prev else Holder(Client(false, kinds[0]), CreateChain(kinds[1..], prev))
  }

  /** `ProcessData` of one client: its new state and the buffer it posts, if any. */
  function Process(codec: Codec, kind: Kind, data: Bytes): (Kind, Option<Bytes>) {
    match kind
    case FrameReaderClient(buffer) =>
      (match ScanBuffer(buffer + data)
       case Got(payload, rest) => (FrameReaderClient(rest), Some(payload))
       case _ => (FrameReaderClient(buffer + data), None))
    case ParallelClient(queue) => (ParallelClient(queue + [data]), None)
    case UnzipClient => (kind, Some(codec.unzip(data)))
    case RpcClient(inbox) => (RpcClient(inbox + [data]), None)
    case ZipClient => (kind, Some(codec.zip(data)))
    case FrameWriterClient => (kind, Some(Frame(data)))
  }

  /** The chain after a buffer went in, what left it at the end, and whether no client threw. */
  datatype Fed = Fed(chain: Holder, out: Option<Bytes>, ok: bool)

  /** `OnData` of the first holder: closed clients drop, empty buffers throw, the rest is passed on. */
  function Feed(codec: Codec, chain: Holder, data: Bytes): Fed {
    match chain
    case End => Fed(chain, Some(data), true)
    case Holder(client, next) =>
      match NetClient.Gate(client.closed, data)
      case Refused => Fed(chain, None, true)
      case Threw => Fed(chain, None, false)
      case Done =>
        var (kind, posted) := Process(codec, client.kind, data);
        if posted.None? then Fed(Holder(Client(client.closed, kind), next), None, true)
        else
          var rest := Feed(codec, next, posted.value);
          Fed(Holder(Client(client.closed, kind), rest.chain), rest.out, rest.ok)
  }

  function Append(a: Holder, b: Holder): Holder {
    match a
    case End => b
    case Holder(client, next) => Holder(client, Append(next, b))
  }

  /** Feeding two chains one after the other. */
  function FeedBoth(codec: Codec, a: Holder, b: Holder, data: Bytes): Fed {
    var first := Feed(codec, a, data);
    if first.out.None? then Fed(Append(first.chain, b), None, first.ok)
    else
      var second := Feed(codec, b, first.out.value);
      Fed(Append(first.chain, second.chain), second.out, second.ok)
  }

  /** Chains compose: whatever leaves the first part enters the second, and exceptions pass through. */
  lemma {:induction false} FeedAppend(codec: Codec, a: Holder, b: Holder, data: Bytes)
    ensures Feed(codec, Append(a, b), data) == FeedBoth(codec, a, b, data)
  {
    match a
    case End =>
    case Holder(client, next) =>
      if !client.closed && data != [] {
        var (kind, posted) := Process(codec, client.kind, data);
        if posted.Some? {
          FeedAppend(codec, next, b, posted.value);
        }
      }
  }

  lemma {:induction false} CreateAppend(a: seq<Kind>, b: seq<Kind>, prev: Holder)
    ensures CreateChain(a + b, prev) == Append(CreateChain(a, End), CreateChain(b, prev))
  {
    if a == [] {
      assert a + b == b;
    } else {
      assert (a + b)[1..] == a[1..] + b;
      CreateAppend(a[1..], b, prev);
    }
  }

  /** A chain created from a list of stages acts as its stages in declared order. */
  lemma ChainIsComposition(codec: Codec, a: seq<Kind>, b: seq<Kind>, data: Bytes)
    ensures Feed(codec, CreateChain(a + b, End), data) == FeedBoth(codec, CreateChain(a, End), CreateChain(b, End), data)
  {
    CreateAppend(a, b, End);
    FeedAppend(codec, CreateChain(a, End), CreateChain(b, End), data);
  }

  // ---------------------------------------------------------------- two peers

  /** The stages of the `ArchivedFrame` chain, in declared order. */
  function Stages(): seq<Kind> {
    [FrameReaderClient([]), ParallelClient([]), UnzipClient, RpcClient([]), ZipClient, FrameWriterClient]
  }

  /** From the socket to the pool of `ParallelHandler`, which may be closed stage by stage. */
  function Front(readerClosed: bool, poolClosed: bool, buffer: Bytes, queue: seq<Bytes>): Holder {
    Holder(Client(readerClosed, FrameReaderClient(buffer)), Holder(Client(poolClosed, ParallelClient(queue)), End))
  }

  /** From the pool to the RPC peer. */
  function Back(unzipClosed: bool, peerClosed: bool, inbox: seq<Bytes>): Holder {
    Holder(Client(unzipClosed, UnzipClient), Holder(Client(peerClosed, RpcClient(inbox)), End))
  }

  /** From the RPC peer to the socket. */
  function Outgoing(zipClosed: bool, writerClosed: bool): Holder {
    Holder(Client(zipClosed, ZipClient), Holder(Client(writerClosed, FrameWriterClient), End))
  }

  /** The chain that is created is these three parts, one after the other. */
  lemma ArchivedFrameSplits()
    ensures CreateChain(Stages(), End) ==
            Append(Append(Front(false, false, [], []), Back(false, false, [])), Outgoing(false, false))
  {
    var stages := Stages();
    assert stages[1..] == [ParallelClient([]), UnzipClient, RpcClient([]), ZipClient, FrameWriterClient];
    assert stages[1..][1..] == [UnzipClient, RpcClient([]), ZipClient, FrameWriterClient];
    assert stages[1..][1..][1..] == [RpcClient([]), ZipClient, FrameWriterClient];
    assert stages[1..][1..][1..][1..] == [ZipClient, FrameWriterClient];
    assert stages[1..][1..][1..][1..][1..] == [FrameWriterClient];
    assert stages[1..][1..][1..][1..][1..][1..] == [];
    assert CreateChain([FrameWriterClient], End) == Holder(Client(false, FrameWriterClient), End);
    assert CreateChain([ZipClient, FrameWriterClient], End) == Outgoing(false, false);
    assert Append(Back(false, false, []), Outgoing(false, false)) ==
           Holder(Client(false, UnzipClient), Holder(Client(false, RpcClient([])), Outgoing(false, false)));
    AppendAssociates(Front(false, false, [], []), Back(false, false, []), Outgoing(false, false));
  }

  lemma {:induction false} AppendAssociates(a: Holder, b: Holder, c: Holder)
    ensures Append(Append(a, b), c) == Append(a, Append(b, c))
  {
    if a.Holder? {
      AppendAssociates(a.next, b, c);
    }
  }

  /** Bytes from the socket go no further than the pool, and what the pool passes on no further than the peer. */
  lemma PartsAreSeparate(codec: Codec, rc: bool, pc: bool, buffer: Bytes, queue: seq<Bytes>, uc: bool, cc: bool, inbox: seq<Bytes>, rest: Holder, data: Bytes)
    ensures Feed(codec, Append(Front(rc, pc, buffer, queue), rest), data).chain == Append(Feed(codec, Front(rc, pc, buffer, queue), data).chain, rest)
    ensures Feed(codec, Append(Front(rc, pc, buffer, queue), rest), data).out.None?
    ensures Feed(codec, Append(Back(uc, cc, inbox), rest), data).chain == Append(Feed(codec, Back(uc, cc, inbox), data).chain, rest)
    ensures Feed(codec, Append(Back(uc, cc, inbox), rest), data).out.None?
  {
    FeedAppend(codec, Front(rc, pc, buffer, queue), rest, data);
    FeedAppend(codec, Back(uc, cc, inbox), rest, data);
    assert forall d :: Feed(codec, Front(rc, pc, buffer, queue).next, d).out.None?;
    assert forall d :: Feed(codec, Back(uc, cc, inbox).next, d).out.None?;
  }

  /** A message of a peer leaves an open chain as one frame of the compressed message; a closed stage drops it. */
  lemma OutgoingFrames(codec: Codec, m: Bytes, zipClosed: bool, writerClosed: bool)
    requires codec.Lossless() && m != []
    ensures Feed(codec, Outgoing(zipClosed, writerClosed), m) ==
            Fed(Outgoing(zipClosed, writerClosed), if zipClosed || writerClosed then None else Some(Frame(codec.zip(m))), true)
  {
    var last := Outgoing(zipClosed, writerClosed).next;
    var z := codec.zip(m);
    assert Feed(codec, End, Frame(z)) == Fed(End, Some(Frame(z)), true);
    assert Feed(codec, last, z) == Fed(last, if writerClosed then None else Some(Frame(z)), true);
  }

  /**
    One direction of the connection: the messages posted by one peer, its outgoing chain, the bytes
    still on the wire, and the receiving chain in the two parts that its `ParallelHandler` separates.
    A worker of the pool may take any queued buffer.
  */
  datatype Link = Link(sent: seq<Bytes>, out: Holder, wire: Bytes, front: Holder, back: Holder)

  datatype Part = Sender | Receiver | Peer

  /** `Close` is `OnClose` of one stage: `Holder::OnClose` reaches the stages of a chain one after another, on any thread. */
  datatype Event = Send(message: Bytes) | Arrive(count: nat) | Work(index: nat) | Close(part: Part, stage: nat)

  function InitLink(): Link {
    Link([], Outgoing(false, false), [], Front(false, false, [], []), Back(false, false, []))
  }

  function Queue(front: Holder): seq<Bytes> {
    if front.Holder? && front.next.Holder? && front.next.client.kind.ParallelClient? then front.next.client.kind.queue
    else []
  }

  predicate PoolClosed(front: Holder) {
    front.Holder? && front.next.Holder? && front.next.client.closed
  }

  function Dequeue(front: Holder, index: nat): Holder
    requires index < |Queue(front)|
  {
    var q := Queue(front);
    Holder(front.client, Holder(Client(front.next.client.closed, ParallelClient(q[..index] + q[index + 1..])), front.next.next))
  }

  /** The chain with the client at a position closed. */
  function CloseAt(chain: Holder, stage: nat): Holder {
    match chain
    case End => End
    case Holder(client, next) =>
      if stage == 0 then Holder(Client(true, client.kind), next) else Holder(client, CloseAt(next, stage - 1))
  }

  predicate Enabled(codec: Codec, l: Link, e: Event) {
    match e
    case Send(m) => m != [] && |codec.zip(m)| < TWO_31
    case Arrive(n) => 0 < n <= |l.wire|
    case Work(i) => i < |Queue(l.front)|
    case Close(_, _) => true
  }

  function Apply(codec: Codec, l: Link, e: Event): Link
    requires Enabled(codec, l, e)
  {
    match e
    case Send(m) =>
      var fed := Feed(codec, l.out, m);
      Link(l.sent + [m], fed.chain, l.wire + (if fed.out.Some? then fed.out.value else []), l.front, l.back)
    case Arrive(n) => Link(l.sent, l.out, l.wire[n..], Feed(codec, l.front, l.wire[..n]).chain, l.back)
    case Work(i) =>
      Link(l.sent, l.out, l.wire, Dequeue(l.front, i),
           if PoolClosed(l.front) then l.back else Feed(codec, l.back, Queue(l.front)[i]).chain)
    case Close(part, stage) =>
      match part
      case Sender => Link(l.sent, CloseAt(l.out, stage), l.wire, l.front, l.back)
      case Receiver => Link(l.sent, l.out, l.wire, CloseAt(l.front, stage), l.back)
      case Peer => Link(l.sent, l.out, l.wire, l.front, CloseAt(l.back, stage))
  }

  // ---------------------------------------------------------------- where the messages are

  function Zipped(codec: Codec, messages: seq<Bytes>): seq<Bytes> {
    seq(|messages|, i requires 0 <= i < |messages| => codec.zip(messages[i]))
  }

  predicate Small(codec: Codec, m: Bytes) {
    m != [] && |codec.zip(m)| < TWO_31
  }

  /** Which stages are closed. */
  datatype Gates = Gates(zip: bool, writer: bool, reader: bool, pool: bool, unzip: bool, peer: bool)

  /**
    The first `passed` messages sent went to the wire, the reader took the first `taken` of them off
    it, and of those the first `entered` went into the pool's queue; then what the reader buffers,
    the queue, and what was delivered.
  */
  datatype Cut = Cut(gates: Gates, passed: nat, taken: nat, entered: nat, buffer: Bytes, queued: seq<Bytes>, inbox: seq<Bytes>)

  /** From the pool on, nothing is closed. */
  predicate Delivers(g: Gates) {
    !g.pool && !g.unzip && !g.peer
  }

  ghost predicate Shape(codec: Codec, l: Link, c: Cut) {
    l.out == Outgoing(c.gates.zip, c.gates.writer) &&
    l.front == Front(c.gates.reader, c.gates.pool, c.buffer, Zipped(codec, c.queued)) &&
    l.back == Back(c.gates.unzip, c.gates.peer, c.inbox)
  }

  ghost predicate Counts(l: Link, c: Cut) {
    c.entered <= c.taken <= c.passed <= |l.sent| &&
    (!c.gates.zip && !c.gates.writer ==> c.passed == |l.sent|) && (!c.gates.pool ==> c.entered == c.taken)
  }

  /** The reader's buffer and the wire hold the frames of the messages between `taken` and `passed`. */
  ghost predicate Stream(codec: Codec, l: Link, c: Cut) {
    c.taken <= c.passed <= |l.sent| &&
    (!c.gates.reader ==> c.buffer + l.wire == Encode(Zipped(codec, l.sent[c.taken..c.passed])))
  }

  /** Delivered and queued messages are among those that entered the pool, and all of those if nothing behind it is closed. */
  ghost predicate Tally(codec: Codec, l: Link, c: Cut) {
    c.entered <= |l.sent| && (forall m :: m in l.sent ==> Small(codec, m)) && (forall m :: m in c.queued ==> m in l.sent) &&
    multiset(c.inbox) + multiset(c.queued) <= multiset(l.sent[..c.entered]) &&
    (Delivers(c.gates) ==> multiset(c.inbox) + multiset(c.queued) == multiset(l.sent[..c.entered]))
  }

  ghost predicate LinkInv(codec: Codec, l: Link, c: Cut) {
    Shape(codec, l, c) && Counts(l, c) && Stream(codec, l, c) && Tally(codec, l, c)
  }

  /** What was delivered was sent first, in order; while nothing behind the pool is closed, the queue comes next. */
  predicate InOrder(l: Link, c: Cut) {
    c.entered <= |l.sent| && c.inbox <= l.sent[..c.entered] && (Delivers(c.gates) ==> c.inbox + c.queued == l.sent[..c.entered])
  }

  // ---------------------------------------------------------------- sending

  function AfterSend(c: Cut): Cut {
    if c.gates.zip || c.gates.writer then c
    else Cut(c.gates, c.passed + 1, c.taken, c.entered, c.buffer, c.queued, c.inbox)
  }

  /** One more frame on the wire. */
  lemma StreamSend(codec: Codec, sent: seq<Bytes>, m: Bytes, buffer: Bytes, wire: Bytes, taken: nat)
    requires taken <= |sent| && buffer + wire == Encode(Zipped(codec, sent[taken..]))
    ensures buffer + (wire + Frame(codec.zip(m))) == Encode(Zipped(codec, (sent + [m])[taken..]))
  {
    var rest := sent[taken..];
    assert (sent + [m])[taken..] == rest + [m];
    assert Zipped(codec, rest + [m]) == Zipped(codec, rest) + [codec.zip(m)];
    EncodeAppend(Zipped(codec, rest), codec.zip(m));
    Associate(buffer, wire, Frame(codec.zip(m)));
  }

  /** One more message sent changes nothing about those that entered the pool. */
  lemma TallySend(codec: Codec, l: Link, l': Link, m: Bytes, c: Cut, c': Cut)
    requires Tally(codec, l, c) && l'.sent == l.sent + [m] && Small(codec, m)
    requires c'.entered == c.entered && c'.queued == c.queued && c'.inbox == c.inbox && c'.gates == c.gates
    ensures Tally(codec, l', c')
    ensures InOrder(l, c) ==> InOrder(l', c')
  {
    assert l'.sent[..c.entered] == l.sent[..c.entered];
  }

  lemma SendShape(codec: Codec, l: Link, m: Bytes, c: Cut)
    requires codec.Lossless() && Shape(codec, l, c) && Enabled(codec, l, Send(m))
    ensures var l' := Apply(codec, l, Send(m));
            Shape(codec, l', AfterSend(c)) && l'.sent == l.sent + [m] &&
            l'.wire == if c.gates.zip || c.gates.writer then l.wire else l.wire + Frame(codec.zip(m))
  {
    OutgoingFrames(codec, m, c.gates.zip, c.gates.writer);
  }

  lemma SendStream(codec: Codec, l: Link, l': Link, m: Bytes, c: Cut)
    requires Counts(l, c) && Stream(codec, l, c) && l'.sent == l.sent + [m]
    requires l'.wire == if c.gates.zip || c.gates.writer then l.wire else l.wire + Frame(codec.zip(m))
    ensures Counts(l', AfterSend(c)) && Stream(codec, l', AfterSend(c))
  {
    if c.gates.zip || c.gates.writer {
      assert l'.sent[c.taken..c.passed] == l.sent[c.taken..c.passed];
    } else {
      assert l.sent[c.taken..c.passed] == l.sent[c.taken..] && l'.sent[c.taken..c.passed + 1] == l'.sent[c.taken..];
      if !c.gates.reader {
        StreamSend(codec, l.sent, m, c.buffer, l.wire, c.taken);
      }
    }
  }

  lemma LinkSend(codec: Codec, l: Link, m: Bytes, c: Cut)
    requires codec.Lossless() && LinkInv(codec, l, c) && Enabled(codec, l, Send(m))
    ensures LinkInv(codec, Apply(codec, l, Send(m)), AfterSend(c))
    ensures InOrder(l, c) ==> InOrder(Apply(codec, l, Send(m)), AfterSend(c))
  {
    var l' := Apply(codec, l, Send(m));
    SendShape(codec, l, m, c);
    SendStream(codec, l, l', m, c);
    TallySend(codec, l, l', m, c, AfterSend(c));
  }

  // ---------------------------------------------------------------- arriving

  /** The reader in front of the pool: one chunk, at most one queued frame. */
  lemma FrontFeeds(codec: Codec, buffer: Bytes, queue: seq<Bytes>, poolClosed: bool, chunk: Bytes)
    requires chunk != []
    requires ScanBuffer(buffer + chunk).Got? ==> ScanBuffer(buffer + chunk).payload != []
    ensures Feed(codec, Front(false, poolClosed, buffer, queue), chunk).chain ==
            match ScanBuffer(buffer + chunk)
            case Got(payload, rest) => Front(false, poolClosed, rest, if poolClosed then queue else queue + [payload])
            case _ => Front(false, poolClosed, buffer + chunk, queue)
  {
  }

  function AfterArrive(codec: Codec, l: Link, n: nat, c: Cut): Cut
    requires c.taken <= c.passed <= |l.sent| && n <= |l.wire|
  {
    var data := c.buffer + l.wire[..n];
    if c.gates.reader then c
    else if c.taken < c.passed && |data| >= 4 + |codec.zip(l.sent[c.taken])| then
      Cut(c.gates, c.passed, c.taken + 1, if c.gates.pool then c.entered else c.entered + 1,
          data[4 + |codec.zip(l.sent[c.taken])|..], if c.gates.pool then c.queued else c.queued + [l.sent[c.taken]], c.inbox)
    else Cut(c.gates, c.passed, c.taken, c.entered, data, c.queued, c.inbox)
  }

  /** What an open reader finds in its buffer once a chunk of the stream is appended. */
  lemma ChunkScanned(codec: Codec, l: Link, n: nat, c: Cut)
    requires codec.Lossless() && Stream(codec, l, c) && !c.gates.reader && n <= |l.wire| && (forall m :: m in l.sent ==> Small(codec, m))
    ensures var data, c' := c.buffer + l.wire[..n], AfterArrive(codec, l, n, c);
            data + l.wire[n..] == c.buffer + l.wire &&
            ScanBuffer(data) == (if c'.taken == c.taken then Wait else Got(codec.zip(l.sent[c.taken]), c'.buffer)) &&
            (c'.taken == c.taken + 1 ==> data == Frame(codec.zip(l.sent[c.taken])) + c'.buffer)
  {
    var data, rest := c.buffer + l.wire[..n], l.sent[c.taken..c.passed];
    var payloads := Zipped(codec, rest);
    assert data + l.wire[n..] == c.buffer + l.wire;
    forall i | 0 <= i < |payloads| ensures |payloads[i]| < TWO_31 {
      assert rest[i] in l.sent;
    }
    ScanStream(payloads, data);
    assert c.taken < c.passed ==> payloads != [] && payloads[0] == codec.zip(l.sent[c.taken]);
  }

  lemma StripPrefix(a: Bytes, b: Bytes, c: Bytes, d: Bytes)
    requires a + b + c == a + d
    ensures b + c == d
  {
    assert a + b + c == a + (b + c);
    assert b + c == (a + (b + c))[|a|..] && d == (a + d)[|a|..];
  }

  /** The stream after a chunk. */
  lemma StreamMoves(codec: Codec, l: Link, n: nat, c: Cut)
    requires codec.Lossless() && Stream(codec, l, c) && !c.gates.reader && n <= |l.wire| && (forall m :: m in l.sent ==> Small(codec, m))
    ensures var c' := AfterArrive(codec, l, n, c);
            c'.buffer + l.wire[n..] == Encode(Zipped(codec, l.sent[c'.taken..c'.passed]))
  {
    var rest, c' := l.sent[c.taken..c.passed], AfterArrive(codec, l, n, c);
    var payloads := Zipped(codec, rest);
    ChunkScanned(codec, l, n, c);
    if c'.taken == c.taken + 1 {
      assert payloads[0] == codec.zip(l.sent[c.taken]) && l.sent[c.taken + 1..c.passed] == rest[1..];
      assert Zipped(codec, rest[1..]) == payloads[1..];
      StripPrefix(Frame(payloads[0]), c'.buffer, l.wire[n..], Encode(payloads[1..]));
    }
  }

  /** One more message enters the queue. */
  lemma TallyMore(codec: Codec, l: Link, c: Cut, c': Cut)
    requires Tally(codec, l, c) && c.entered < |l.sent| && c'.entered == c.entered + 1 && c'.inbox == c.inbox && c'.gates == c.gates
    requires c'.queued == c.queued + [l.sent[c.entered]]
    ensures Tally(codec, l, c')
    ensures InOrder(l, c) ==> InOrder(l, c')
  {
    var m := l.sent[c.entered];
    assert l.sent[..c.entered + 1] == l.sent[..c.entered] + [m];
    Associate(c.inbox, c.queued, [m]);
    assert multiset(c.inbox) + multiset(c.queued + [m]) == multiset(c.inbox) + multiset(c.queued) + multiset{m};
  }

  lemma ArriveShape(codec: Codec, l: Link, n: nat, c: Cut)
    requires codec.Lossless() && Shape(codec, l, c) && Stream(codec, l, c) && 0 < n <= |l.wire| && (forall m :: m in l.sent ==> Small(codec, m))
    ensures Shape(codec, Apply(codec, l, Arrive(n)), AfterArrive(codec, l, n, c))
  {
    if !c.gates.reader {
      ChunkScanned(codec, l, n, c);
      FrontFeeds(codec, c.buffer, Zipped(codec, c.queued), c.gates.pool, l.wire[..n]);
      ZippedMore(codec, c.queued, if c.taken < |l.sent| then l.sent[c.taken] else []);
    }
  }

  lemma ZippedMore(codec: Codec, messages: seq<Bytes>, m: Bytes)
    ensures Zipped(codec, messages + [m]) == Zipped(codec, messages) + [codec.zip(m)]
  {
  }

  lemma ArriveTally(codec: Codec, l: Link, n: nat, c: Cut)
    requires Counts(l, c) && Tally(codec, l, c) && n <= |l.wire|
    ensures Counts(l, AfterArrive(codec, l, n, c)) && Tally(codec, l, AfterArrive(codec, l, n, c))
    ensures InOrder(l, c) ==> InOrder(l, AfterArrive(codec, l, n, c))
  {
    var c' := AfterArrive(codec, l, n, c);
    if c'.entered == c.entered + 1 {
      TallyMore(codec, l, c, c');
    }
  }

  /** A chunk reaches the reader: the next compressed message is queued exactly when it is complete and nothing is closed. */
  lemma LinkArrive(codec: Codec, l: Link, n: nat, c: Cut)
    requires codec.Lossless() && LinkInv(codec, l, c) && Enabled(codec, l, Arrive(n))
    ensures LinkInv(codec, Apply(codec, l, Arrive(n)), AfterArrive(codec, l, n, c))
    ensures InOrder(l, c) ==> InOrder(Apply(codec, l, Arrive(n)), AfterArrive(codec, l, n, c))
  {
    ArriveShape(codec, l, n, c);
    ArriveTally(codec, l, n, c);
    if !c.gates.reader {
      StreamMoves(codec, l, n, c);
    }
  }

  // ---------------------------------------------------------------- delivering

  lemma BackFeeds(codec: Codec, unzipClosed: bool, peerClosed: bool, inbox: seq<Bytes>, m: Bytes)
    requires codec.Lossless() && m != []
    ensures Feed(codec, Back(unzipClosed, peerClosed, inbox), codec.zip(m)).chain ==
            Back(unzipClosed, peerClosed, if unzipClosed || peerClosed then inbox else inbox + [m])
  {
    assert Feed(codec, Back(unzipClosed, peerClosed, inbox).next, m).chain ==
           Holder(Client(peerClosed, RpcClient(if peerClosed then inbox else inbox + [m])), End);
  }

  lemma RemoveAt<T>(s: seq<T>, i: nat)
    requires i < |s|
    ensures multiset(s[..i] + s[i + 1..]) + multiset{s[i]} == multiset(s)
    ensures forall x :: x in s[..i] + s[i + 1..] ==> x in s
  {
    assert s == s[..i] + [s[i]] + s[i + 1..];
  }

  function AfterWork(c: Cut, i: nat): Cut
    requires i < |c.queued|
  {
    Cut(c.gates, c.passed, c.taken, c.entered, c.buffer, c.queued[..i] + c.queued[i + 1..],
        if Delivers(c.gates) then c.inbox + [c.queued[i]] else c.inbox)
  }

  /** A worker delivers one queued message, whichever it picked, or drops it when a stage is closed. */
  lemma LinkWork(codec: Codec, l: Link, i: nat, c: Cut)
    requires codec.Lossless() && LinkInv(codec, l, c) && Enabled(codec, l, Work(i))
    ensures i < |c.queued|
    ensures LinkInv(codec, Apply(codec, l, Work(i)), AfterWork(c, i))
    ensures InOrder(l, c) && i == 0 ==> InOrder(Apply(codec, l, Work(i)), AfterWork(c, i))
  {
    var m := c.queued[i];
    assert m in c.queued && Small(codec, m);
    WorkMoves(codec, l, i, c);
    TallyLess(codec, l, c, i);
  }

  lemma TallyLess(codec: Codec, l: Link, c: Cut, i: nat)
    requires Tally(codec, l, c) && i < |c.queued|
    ensures Tally(codec, l, AfterWork(c, i))
    ensures InOrder(l, c) && i == 0 ==> InOrder(l, AfterWork(c, i))
  {
    MoveOne(c.inbox, c.queued, i);
    if i == 0 && InOrder(l, c) && Delivers(c.gates) {
      TakeFirst(c.inbox, c.queued);
    }
  }

  lemma MoveOne(inbox: seq<Bytes>, queued: seq<Bytes>, i: nat)
    requires i < |queued|
    ensures var rest := queued[..i] + queued[i + 1..];
            multiset(inbox + [queued[i]]) + multiset(rest) == multiset(inbox) + multiset(queued) &&
            multiset(rest) <= multiset(queued) && forall m :: m in rest ==> m in queued
  {
    RemoveAt(queued, i);
    assert multiset(inbox + [queued[i]]) == multiset(inbox) + multiset{queued[i]};
  }

  lemma TakeFirst(inbox: seq<Bytes>, queued: seq<Bytes>)
    requires queued != []
    ensures (inbox + [queued[0]]) + (queued[..0] + queued[1..]) == inbox + queued
  {
    Associate(inbox, [queued[0]], queued[1..]);
    assert queued == [queued[0]] + queued[1..] && queued[..0] + queued[1..] == queued[1..];
  }

  lemma WorkMoves(codec: Codec, l: Link, i: nat, c: Cut)
    requires codec.Lossless() && Shape(codec, l, c) && i < |c.queued| && c.queued[i] != []
    ensures Enabled(codec, l, Work(i))
    ensures Shape(codec, Apply(codec, l, Work(i)), AfterWork(c, i))
    ensures Apply(codec, l, Work(i)).sent == l.sent && Apply(codec, l, Work(i)).wire == l.wire
  {
    var q := Zipped(codec, c.queued);
    assert Queue(l.front) == q;
    assert q[..i] + q[i + 1..] == Zipped(codec, AfterWork(c, i).queued);
    BackFeeds(codec, c.gates.unzip, c.gates.peer, c.inbox, c.queued[i]);
  }

  // ---------------------------------------------------------------- closing

  function Shut(g: Gates, part: Part, stage: nat): Gates {
    match part
    case Sender => Gates(g.zip || stage == 0, g.writer || stage == 1, g.reader, g.pool, g.unzip, g.peer)
    case Receiver => Gates(g.zip, g.writer, g.reader || stage == 0, g.pool || stage == 1, g.unzip, g.peer)
    case Peer => Gates(g.zip, g.writer, g.reader, g.pool, g.unzip || stage == 0, g.peer || stage == 1)
  }

  function AfterClose(c: Cut, part: Part, stage: nat): Cut {
    Cut(Shut(c.gates, part, stage), c.passed, c.taken, c.entered, c.buffer, c.queued, c.inbox)
  }

  lemma LinkClose(codec: Codec, l: Link, part: Part, stage: nat, c: Cut)
    requires LinkInv(codec, l, c)
    ensures LinkInv(codec, Apply(codec, l, Close(part, stage)), AfterClose(c, part, stage))
    ensures InOrder(l, c) ==> InOrder(Apply(codec, l, Close(part, stage)), AfterClose(c, part, stage))
  {
    var l' := Apply(codec, l, Close(part, stage));
    CloseShapes(codec, l, part, stage, c);
    assert InOrder(l, c) && Delivers(c.gates) ==> c.inbox <= l.sent[..c.entered];
  }

  lemma CloseShapes(codec: Codec, l: Link, part: Part, stage: nat, c: Cut)
    requires Shape(codec, l, c)
    ensures Shape(codec, Apply(codec, l, Close(part, stage)), AfterClose(c, part, stage))
    ensures Apply(codec, l, Close(part, stage)).sent == l.sent && Apply(codec, l, Close(part, stage)).wire == l.wire
  {
    match part
    case Sender => CloseTwo(l.out, stage);
    case Receiver => CloseTwo(l.front, stage);
    case Peer => CloseTwo(l.back, stage);
  }

  /** Closing in a chain of two. */
  lemma CloseTwo(chain: Holder, stage: nat)
    requires chain.Holder? && chain.next.Holder? && chain.next.next.End?
    ensures CloseAt(chain, stage) ==
            Holder(Client(chain.client.closed || stage == 0, chain.client.kind),
                   Holder(Client(chain.next.client.closed || stage == 1, chain.next.client.kind), End))
  {
    if stage > 0 {
      assert CloseAt(chain.next, stage - 1) ==
             Holder(Client(chain.next.client.closed || stage == 1, chain.next.client.kind), End);
    }
  }

  // ---------------------------------------------------------------- runs

  ghost predicate IsRun(codec: Codec, states: seq<Link>, events: seq<Event>) {
    |states| == |events| + 1 && states[0] == InitLink() &&
    forall i :: 0 <= i < |events| ==> Enabled(codec, states[i], events[i]) && states[i + 1] == Apply(codec, states[i], events[i])
  }

  predicate InTurn(events: seq<Event>, n: nat)
    requires n <= |events|
  {
    forall i :: 0 <= i < n && events[i].Work? ==> events[i].index == 0
  }

  /** Which stages the first n events closed. */
  function GatesAt(events: seq<Event>, n: nat): Gates
    requires n <= |events|
  {
    if n == 0 then Gates(false, false, false, false, false, false)
    else NextGates(GatesAt(events, n - 1), events[n - 1])
  }

  function NextGates(g: Gates, e: Event): Gates {
    if e.Close? then Shut(g, e.part, e.stage) else g
  }

  /** Any step keeps the accounting; a step that takes the first task keeps the order. */
  lemma LinkStep(codec: Codec, l: Link, e: Event, c: Cut) returns (c': Cut)
    requires codec.Lossless() && LinkInv(codec, l, c) && Enabled(codec, l, e)
    ensures LinkInv(codec, Apply(codec, l, e), c') && c'.gates == NextGates(c.gates, e)
    ensures InOrder(l, c) && (e.Work? ==> e.index == 0) ==> InOrder(Apply(codec, l, e), c')
    ensures !Delivers(c.gates) ==> c'.inbox == c.inbox
  {
    match e
    case Send(m) =>
      LinkSend(codec, l, m, c);
      c' := AfterSend(c);
    case Arrive(k) =>
      LinkArrive(codec, l, k, c);
      c' := AfterArrive(codec, l, k, c);
    case Work(i) =>
      LinkWork(codec, l, i, c);
      c' := AfterWork(c, i);
    case Close(part, stage) =>
      LinkClose(codec, l, part, stage, c);
      c' := AfterClose(c, part, stage);
  }

  lemma {:induction false} RunCut(codec: Codec, states: seq<Link>, events: seq<Event>, n: nat) returns (c: Cut)
    requires codec.Lossless() && IsRun(codec, states, events) && n < |states|
    ensures LinkInv(codec, states[n], c) && c.gates == GatesAt(events, n)
    ensures InTurn(events, n) ==> InOrder(states[n], c)
    decreases n
  {
    if n == 0 {
      c := Cut(Gates(false, false, false, false, false, false), 0, 0, 0, [], [], []);
      assert Zipped(codec, []) == [];
    } else {
      c := RunCut(codec, states, events, n - 1);
      c := LinkStep(codec, states[n - 1], events[n - 1], c);
    }
  }

  /** The messages handed to the RPC peer at the end of the receiving chain. */
  function Delivered(l: Link): seq<Bytes> {
    if l.back.Holder? && l.back.next.Holder? && l.back.next.client.kind.RpcClient? then l.back.next.client.kind.inbox else []
  }

  /**
    However the stream is cut, whichever tasks the pool runs first and whichever stages close when,
    the peer receives a sub-multiset of the messages posted, each unharmed; if tasks run in order,
    it receives a prefix of them.
  */
  lemma DeliveryIsFaithful(codec: Codec, states: seq<Link>, events: seq<Event>, n: nat)
    requires codec.Lossless() && IsRun(codec, states, events) && n < |states|
    ensures multiset(Delivered(states[n])) <= multiset(states[n].sent)
    ensures InTurn(events, n) ==> Delivered(states[n]) <= states[n].sent
  {
    var c := RunCut(codec, states, events, n);
    PrefixPart(states[n].sent, c.entered);
    assert Delivered(states[n]) == c.inbox;
  }

  lemma PrefixPart(s: seq<Bytes>, n: nat)
    requires n <= |s|
    ensures multiset(s[..n]) <= multiset(s) && s[..n] <= s
  {
    assert s == s[..n] + s[n..];
  }

  /** The first `taken` messages sent are delivered or queued, and the frames of the others are in the reader's buffer and on the wire. */
  ghost predicate Whereabouts(codec: Codec, l: Link, taken: nat, buffer: Bytes, queued: seq<Bytes>) {
    taken <= |l.sent| && l.front == Front(false, false, buffer, Zipped(codec, queued)) &&
    multiset(Delivered(l)) + multiset(queued) == multiset(l.sent[..taken]) &&
    buffer + l.wire == Encode(Zipped(codec, l.sent[taken..]))
  }

  /**
    Only closing loses messages: while no stage is closed, every message posted is delivered,
    queued, or complete in what the reader still buffers and the wire still carries.
  */
  lemma NothingLostWhileOpen(codec: Codec, states: seq<Link>, events: seq<Event>, n: nat)
    requires codec.Lossless() && IsRun(codec, states, events) && n < |states|
    requires forall i :: 0 <= i < n ==> !events[i].Close?
    ensures exists taken, buffer, queued :: Whereabouts(codec, states[n], taken, buffer, queued)
  {
    var c := RunCut(codec, states, events, n);
    NeverClosed(events, n);
    OpenWhereabouts(codec, states[n], c);
  }

  lemma OpenWhereabouts(codec: Codec, l: Link, c: Cut)
    requires LinkInv(codec, l, c) && c.gates == Gates(false, false, false, false, false, false)
    ensures Whereabouts(codec, l, c.taken, c.buffer, c.queued)
  {
    OpenShape(codec, l, c);
    OpenTally(codec, l, c);
    assert l.sent[c.taken..c.passed] == l.sent[c.taken..];
  }

  lemma OpenShape(codec: Codec, l: Link, c: Cut)
    requires Shape(codec, l, c)
    ensures Delivered(l) == c.inbox
    ensures !c.gates.reader && !c.gates.pool ==> l.front == Front(false, false, c.buffer, Zipped(codec, c.queued))
  {
  }

  lemma OpenTally(codec: Codec, l: Link, c: Cut)
    requires Counts(l, c) && Tally(codec, l, c) && Delivers(c.gates)
    ensures c.entered == c.taken && multiset(c.inbox) + multiset(c.queued) == multiset(l.sent[..c.taken])
  {
  }

  lemma {:induction false} NeverClosed(events: seq<Event>, n: nat)
    requires n <= |events| && forall i :: 0 <= i < n ==> !events[i].Close?
    ensures GatesAt(events, n) == Gates(false, false, false, false, false, false)
  {
    if n > 0 {
      NeverClosed(events, n - 1);
    }
  }

  /** After a stage from the pool on is closed, nothing more is delivered. */
  lemma ClosedDeliversNothing(codec: Codec, states: seq<Link>, events: seq<Event>, n: nat)
    requires codec.Lossless() && IsRun(codec, states, events) && n < |events| && !Delivers(GatesAt(events, n))
    ensures Delivered(states[n + 1]) == Delivered(states[n])
  {
    var c := RunCut(codec, states, events, n);
    var c' := LinkStep(codec, states[n], events[n], c);
  }
}
