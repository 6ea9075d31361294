/**
  The session store of the HTTP servlet: sessions found or created under a double check, one
  response slot and one exception slot for each thread, and the sweep of closed and expired
  sessions. Each locked section of the source is one step, so every interleaving is a run.
*/
module Servlet {
  import opened Basics

  type Buffer = seq<char>

  /** `std::invalid_argument`, any other `std::exception`, or something else. */
  datatype Error = Invalid(what: string) | Standard(what: string) | Unknown

  datatype ExceptionPtr = Null | Thrown(error: Error)

  // ---------------------------------------------------------------- one session

  datatype Session = Session(stamp: int, close: bool, responses: map<nat, Buffer>, exceptions: map<nat, ExceptionPtr>)

  function NewSession(now: int): Session {
    Session(now, false, map[], map[])
  }

  /** `emplace`: an entry already there is kept. */
  function Published(x: Session, t: nat, data: Buffer): Session {
    if t in x.responses then x else Session(x.stamp, x.close, x.responses[t := data], x.exceptions)
  }

  function ResponseCleaned(x: Session, t: nat): Session {
    Session(x.stamp, x.close, map u | u in x.responses && u != t :: x.responses[u], x.exceptions)
  }

  function ExceptionForgotten(x: Session, t: nat): Session {
    Session(x.stamp, x.close, x.responses, map u | u in x.exceptions && u != t :: x.exceptions[u])
  }

  function Stamped(x: Session, now: int): Session {
    Session(now, x.close, x.responses, x.exceptions)
  }

  function Response(x: Session, t: nat): Buffer {
    if t in x.responses then x.responses[t] else []
  }

  /** The buffer is swapped out; the entry stays. */
  function Taken(x: Session, t: nat): Session {
    if t in x.responses then Session(x.stamp, x.close, x.responses[t := []], x.exceptions) else x
  }

  function Recorded(x: Session, t: nat, e: Error): Session {
    if t in x.exceptions then x else Session(x.stamp, x.close, x.responses, x.exceptions[t := Thrown(e)])
  }

  function Closed(x: Session): Session {
    Session(x.stamp, true, x.responses, x.exceptions)
  }

  function Pending(x: Session, t: nat): ExceptionPtr {
    if t in x.exceptions then x.exceptions[t] else Null
  }

  /** The pointer is swapped out; an entry that holds null stays. */
  function Collected(x: Session, t: nat): Session {
    if t in x.exceptions then Session(x.stamp, x.close, x.responses, x.exceptions[t := Null]) else x
  }

  predicate Dead(x: Session, now: int, timeout: int) {
    x.close || now - x.stamp >= timeout
  }

  function First(published: seq<Buffer>): Buffer {
    if published == [] then [] else published[0]
  }

  // ---------------------------------------------------------------- threads and steps

  datatype Pc =
    | Idle | Missed | Made | Ready | Cleaned | Running | Returned | Caught | Noted | Leaving
    | Checking | Closing | Removing | Finished

  datatype Outcome = Nothing | Reply(data: Buffer, header: bool) | Failed(error: Error)

  /**
    A thread and its current request. `called`, `published` and `threw` record what the client
    did in this call: whether it was called, what it published on this session from this thread,
    and what it threw.
  */
  datatype Thread = Thread(pc: Pc, id: string, empty: bool, sid: Option<nat>, called: bool,
                           published: seq<Buffer>, threw: Option<Error>, data: Buffer, outcome: Outcome)

  datatype State = State(sessions: map<string, nat>, store: seq<Session>, threads: seq<Thread>)

  datatype Event =
    | Begin(t: nat, header: Option<string>, empty: bool)
    | Make(t: nat, now: int)
    | FactoryFails(t: nat, error: Error)
    | Insert(t: nat)
    | Enter(t: nat)
    | Call(t: nat)
    | Publish(t: nat, sid: nat, data: Buffer)
    | CloseMe(sid: nat)
    | Return(t: nat, now: int)
    | Throw(t: nat, error: Error)
    | Take(t: nat)
    | Note(t: nat)
    | Flag(t: nat)
    | Leave(t: nat)
    | Check(t: nat)
    | Collect(t: nat)
    | Remove(t: nat)
    | Answer(t: nat)
    | Clean(now: int, timeout: int)

  predicate AtPc(s: State, t: nat, pc: Pc) {
    t < |s.threads| && s.threads[t].pc == pc
  }

  predicate Holds(s: State, t: nat) {
    t < |s.threads| && s.threads[t].sid.Some? && s.threads[t].sid.value < |s.store|
  }

  /** Client code publishes from whatever thread it is on, to any session it knows. */
  predicate Enabled(s: State, e: Event) {
    match e
    case Begin(t, _, _) => AtPc(s, t, Idle)
    case Make(t, _) => AtPc(s, t, Missed)
    case FactoryFails(t, _) => AtPc(s, t, Missed) || AtPc(s, t, Made)
    case Insert(t) => AtPc(s, t, Made) && Holds(s, t)
    case Enter(t) => AtPc(s, t, Ready) && Holds(s, t)
    case Call(t) => AtPc(s, t, Cleaned) && Holds(s, t)
    case Publish(t, sid, _) => (AtPc(s, t, Idle) || AtPc(s, t, Made) || AtPc(s, t, Running)) && sid < |s.store|
    case CloseMe(sid) => sid < |s.store|
    case Return(t, _) => AtPc(s, t, Running) && Holds(s, t)
    case Throw(t, _) => AtPc(s, t, Running)
    case Take(t) => AtPc(s, t, Returned) && Holds(s, t)
    case Note(t) => AtPc(s, t, Caught) && Holds(s, t) && s.threads[t].threw.Some?
    case Flag(t) => AtPc(s, t, Noted) && Holds(s, t)
    case Leave(t) => AtPc(s, t, Leaving) && Holds(s, t)
    case Check(t) => AtPc(s, t, Checking) && Holds(s, t)
    case Collect(t) => AtPc(s, t, Closing) && Holds(s, t)
    case Remove(t) => AtPc(s, t, Removing)
    case Answer(t) => AtPc(s, t, Finished)
    case Clean(_, _) => true
  }

  function Fresh(id: string, empty: bool, pc: Pc, sid: Option<nat>): Thread {
    Thread(pc, id, empty, sid, false, [], None, [], Nothing)
  }

  function Goto(th: Thread, pc: Pc): Thread {
    Thread(pc, th.id, th.empty, th.sid, th.called, th.published, th.threw, th.data, th.outcome)
  }

  function Acquire(th: Thread, sid: nat): Thread {
    Thread(Ready, th.id, th.empty, Some(sid), th.called, th.published, th.threw, th.data, th.outcome)
  }

  function End(th: Thread, pc: Pc, outcome: Outcome): Thread {
    Thread(pc, th.id, th.empty, th.sid, th.called, th.published, th.threw, th.data, outcome)
  }

  /** What a step leaves of the thread that takes it. */
  function ThreadAfter(s: State, e: Event, th: Thread): Thread
    requires Enabled(s, e) && (e.CloseMe? || e.Clean? || (e.t < |s.threads| && th == s.threads[e.t]))
  {
    match e
    case Begin(t, header, empty) =>
      if header.None? then Thread(Finished, "", empty, None, false, [], None, [], Failed(Invalid("Session not found.")))
      else if header.value == "" then Thread(Finished, "", empty, None, false, [], None, [], Failed(Invalid("Empty session.")))
      else if header.value in s.sessions then Fresh(header.value, empty, Ready, Some(s.sessions[header.value]))
      else Fresh(header.value, empty, Missed, None)
    case Make(t, now) => Fresh(th.id, th.empty, Made, Some(|s.store|))
    case FactoryFails(t, error) => End(th, Removing, Failed(error))
    case Insert(t) => Acquire(th, if th.id in s.sessions then s.sessions[th.id] else th.sid.value)
    case Enter(t) => if th.empty then End(th, Removing, Failed(Invalid("No input data."))) else Goto(th, Cleaned)
    case Call(t) => Thread(Running, th.id, th.empty, th.sid, true, [], None, [], Nothing)
    case Publish(t, sid, data) =>
      if th.pc == Running && th.sid == Some(sid)
      then Thread(Running, th.id, th.empty, th.sid, th.called, th.published + [data], th.threw, th.data, th.outcome)
      else th
    case Return(t, now) => Goto(th, Returned)
    case Throw(t, error) =>
      Thread(if error.Unknown? then Leaving else Caught, th.id, th.empty, th.sid, th.called, th.published, Some(error), [], Nothing)
    case Take(t) =>
      Thread(Leaving, th.id, th.empty, th.sid, th.called, th.published, None, Response(s.store[th.sid.value], t), Nothing)
    case Note(t) => Goto(th, Noted)
    case Flag(t) => Goto(th, Leaving)
    case Leave(t) => if th.threw == Some(Unknown) then End(th, Removing, Failed(Unknown)) else Goto(th, Checking)
    case Check(t) => if s.store[th.sid.value].close then Goto(th, Closing) else End(th, Finished, Reply(th.data, true))
    case Collect(t) =>
      var ex := Pending(s.store[th.sid.value], t);
      if ex.Thrown? then End(th, Removing, Failed(ex.error)) else End(th, Finished, Reply(th.data, false))
    case Remove(t) => Goto(th, Finished)
    case Answer(t) => Fresh("", true, Idle, None)
    case CloseMe(_) => th
    case Clean(_, _) => th
  }

  /** The session a step works on, when it works on one. */
  function Target(s: State, e: Event): (r: Option<nat>)
    requires Enabled(s, e)
    ensures r.Some? ==> r.value < |s.store|
  {
    match e
    case Publish(_, sid, _) => Some(sid)
    case CloseMe(sid) => Some(sid)
    case Enter(t) => s.threads[t].sid
    case Call(t) => s.threads[t].sid
    case Return(t, _) => s.threads[t].sid
    case Take(t) => s.threads[t].sid
    case Note(t) => s.threads[t].sid
    case Flag(t) => s.threads[t].sid
    case Leave(t) => s.threads[t].sid
    case Collect(t) => s.threads[t].sid
    case _ => None
  }

  function SessionAfter(s: State, e: Event, x: Session): Session
    requires Enabled(s, e)
  {
    match e
    case Publish(t, _, data) => Published(x, t, data)
    case CloseMe(_) => Closed(x)
    case Enter(t) => if s.threads[t].empty then x else ResponseCleaned(x, t)
    case Call(t) => ExceptionForgotten(x, t)
    case Return(_, now) => Stamped(x, now)
    case Take(t) => Taken(x, t)
    case Note(t) => Recorded(x, t, s.threads[t].threw.value)
    case Flag(t) => Closed(x)
    case Leave(t) => ResponseCleaned(x, t)
    case Collect(t) => Collected(x, t)
    case _ => x
  }

  function StoreAfter(s: State, e: Event): seq<Session>
    requires Enabled(s, e)
  {
    var target := Target(s, e);
    if e.Make? then s.store + [NewSession(e.now)]
    else if target.Some? then s.store[target.value := SessionAfter(s, e, s.store[target.value])]
    else s.store
  }

  ghost predicate Registered(s: State) {
    forall id :: id in s.sessions ==> s.sessions[id] < |s.store|
  }

  /** What the cleaner keeps: `Dead` is its test. */
  function Swept(sessions: map<string, nat>, store: seq<Session>, now: int, timeout: int): map<string, nat> {
    map id | id in sessions && !(sessions[id] < |store| && Dead(store[sessions[id]], now, timeout)) :: sessions[id]
  }

  function Without(sessions: map<string, nat>, id: string): map<string, nat> {
    map other | other in sessions && other != id :: sessions[other]
  }

  function SessionsAfter(s: State, e: Event): map<string, nat>
    requires Enabled(s, e)
  {
    match e
    case Insert(t) => if s.threads[t].id in s.sessions then s.sessions else s.sessions[s.threads[t].id := s.threads[t].sid.value]
    case Remove(t) => if s.threads[t].id == "" then s.sessions else Without(s.sessions, s.threads[t].id)
    case Clean(now, timeout) => Swept(s.sessions, s.store, now, timeout)
    case _ => s.sessions
  }

  function Apply(s: State, e: Event): State
    requires Enabled(s, e)
  {
    State(SessionsAfter(s, e), StoreAfter(s, e),
          if e.CloseMe? || e.Clean? then s.threads else s.threads[e.t := ThreadAfter(s, e, s.threads[e.t])])
  }

  // ---------------------------------------------------------------- invariant

  /** The response slot holds the first buffer this call published, if any. */
  predicate SlotIs(x: Session, t: nat, published: seq<Buffer>) {
    if published == [] then t !in x.responses else t in x.responses && x.responses[t] == published[0]
  }

  predicate Fine(x: Session, t: nat, th: Thread) {
    th.called && th.threw.None? && t !in x.exceptions
  }

  predicate Bad(x: Session, t: nat, th: Thread) {
    th.called && th.threw.Some? && !th.threw.value.Unknown? && t in x.exceptions && x.exceptions[t] == Thrown(th.threw.value) && x.close
  }

  /** What the session keeps for a thread at each point of its request. */
  predicate Inside(x: Session, t: nat, th: Thread) {
    match th.pc
    case Made => !th.called
    case Ready => !th.called
    case Cleaned => !th.called && t !in x.responses
    case Running => Fine(x, t, th) && SlotIs(x, t, th.published)
    case Returned => Fine(x, t, th) && SlotIs(x, t, th.published)
    case Caught => th.called && th.threw.Some? && !th.threw.value.Unknown? && t !in x.exceptions
    case Noted =>
      th.called && th.threw.Some? && !th.threw.value.Unknown? && t in x.exceptions && x.exceptions[t] == Thrown(th.threw.value)
    case Leaving =>
      (Fine(x, t, th) && th.data == First(th.published)) || Bad(x, t, th) || (th.called && th.threw == Some(Unknown))
    case Checking => t !in x.responses && ((Fine(x, t, th) && th.data == First(th.published)) || Bad(x, t, th))
    case Closing => t !in x.responses && ((Fine(x, t, th) && th.data == First(th.published)) || Bad(x, t, th))
    case _ => true
  }

  /** What a request ends with, told by what the client did in this very call. */
  predicate Answered(th: Thread) {
    if th.called then
      (th.threw.None? && th.outcome.Reply? && th.outcome.data == First(th.published)) ||
      (th.threw.Some? && th.outcome == Failed(th.threw.value))
    else th.outcome.Failed?
  }

  predicate InSession(pc: Pc) {
    pc.Made? || pc.Ready? || pc.Cleaned? || pc.Running? || pc.Returned? || pc.Caught? || pc.Noted? ||
    pc.Leaving? || pc.Checking? || pc.Closing?
  }

  predicate ThreadOk(store: seq<Session>, t: nat, th: Thread) {
    (th.sid.Some? ==> th.sid.value < |store|) &&
    (InSession(th.pc) ==> th.id != "" && th.sid.Some? && Inside(store[th.sid.value], t, th)) &&
    (th.pc.Missed? ==> th.id != "" && !th.called && th.sid.None?) &&
    (th.pc.Idle? ==> th.sid.None? && !th.called) &&
    (th.pc.Removing? ==> th.outcome.Failed?) &&
    (th.pc.Removing? || th.pc.Finished? ==> Answered(th))
  }

  ghost predicate ThreadsOk(s: State) {
    forall t :: 0 <= t < |s.threads| ==> ThreadOk(s.store, t, s.threads[t])
  }

  /** A session is registered once, and one just made is not registered and is its maker's alone. */
  ghost predicate Unique(s: State) {
    (forall a, b :: a in s.sessions && b in s.sessions && s.sessions[a] == s.sessions[b] ==> a == b) &&
    (forall a, t :: a in s.sessions && 0 <= t < |s.threads| && s.threads[t].pc.Made? ==> s.threads[t].sid != Some(s.sessions[a])) &&
    (forall t, u :: 0 <= t < |s.threads| && 0 <= u < |s.threads| && s.threads[t].pc.Made? && t != u ==>
       s.threads[u].sid != s.threads[t].sid || s.threads[t].sid.None?)
  }

  ghost predicate Inv(s: State) {
    Registered(s) && ThreadsOk(s) && Unique(s)
  }

  // ---------------------------------------------------------------- steps keep it

  /** Nothing a thread sees of a session changes, except that it may be closed. */
  predicate SameSlots(x: Session, y: Session, u: nat) {
    (u in x.responses <==> u in y.responses) && (u in x.responses ==> x.responses[u] == y.responses[u]) &&
    (u in x.exceptions <==> u in y.exceptions) && (u in x.exceptions ==> x.exceptions[u] == y.exceptions[u]) &&
    (x.close ==> y.close)
  }

  lemma OthersKeepSlots(s: State, e: Event, x: Session, u: nat)
    requires Enabled(s, e) && (e.CloseMe? || e.Clean? || e.t != u)
    ensures SameSlots(x, SessionAfter(s, e, x), u)
  {
  }

  lemma InsideKept(x: Session, y: Session, u: nat, th: Thread)
    requires SameSlots(x, y, u) && Inside(x, u, th)
    ensures Inside(y, u, th)
  {
  }

  lemma OtherThreadOk(s: State, e: Event, u: nat)
    requires Enabled(s, e) && u < |s.threads| && ThreadOk(s.store, u, s.threads[u]) && (e.CloseMe? || e.Clean? || e.t != u)
    ensures ThreadOk(StoreAfter(s, e), u, s.threads[u])
  {
    var th := s.threads[u];
    var target := Target(s, e);
    if InSession(th.pc) && target == th.sid {
      OthersKeepSlots(s, e, s.store[target.value], u);
      InsideKept(s.store[target.value], SessionAfter(s, e, s.store[target.value]), u, th);
    }
  }

  predicate InCall(e: Event) {
    e.Call? || e.Publish? || e.Return? || e.Throw? || e.Take? || e.Note? || e.Flag? || e.Leave?
  }

  predicate OfClient(e: Event) {
    e.Call? || e.Publish? || e.Return? || e.Throw?
  }

  lemma OwnOfClient(s: State, e: Event)
    requires Enabled(s, e) && OfClient(e) && ThreadOk(s.store, e.t, s.threads[e.t])
    ensures ThreadOk(StoreAfter(s, e), e.t, ThreadAfter(s, e, s.threads[e.t]))
  {
  }

  lemma OwnAfterClient(s: State, e: Event)
    requires Enabled(s, e) && InCall(e) && !OfClient(e) && ThreadOk(s.store, e.t, s.threads[e.t])
    ensures ThreadOk(StoreAfter(s, e), e.t, ThreadAfter(s, e, s.threads[e.t]))
  {
  }

  lemma OwnInCall(s: State, e: Event)
    requires Enabled(s, e) && InCall(e) && ThreadOk(s.store, e.t, s.threads[e.t])
    ensures ThreadOk(StoreAfter(s, e), e.t, ThreadAfter(s, e, s.threads[e.t]))
  {
    if OfClient(e) {
      OwnOfClient(s, e);
    } else {
      OwnAfterClient(s, e);
    }
  }

  predicate Starts(e: Event) {
    e.Begin? || e.Make? || e.FactoryFails? || e.Insert?
  }

  lemma OwnStart(s: State, e: Event)
    requires Enabled(s, e) && Registered(s) && Starts(e) && ThreadOk(s.store, e.t, s.threads[e.t])
    ensures ThreadOk(StoreAfter(s, e), e.t, ThreadAfter(s, e, s.threads[e.t]))
  {
  }

  lemma OwnEnd(s: State, e: Event)
    requires Enabled(s, e) && !InCall(e) && !Starts(e) && !e.CloseMe? && !e.Clean? && ThreadOk(s.store, e.t, s.threads[e.t])
    ensures ThreadOk(StoreAfter(s, e), e.t, ThreadAfter(s, e, s.threads[e.t]))
  {
  }

  lemma ThreadsStep(s: State, e: Event)
    requires Enabled(s, e) && Inv(s)
    ensures ThreadsOk(Apply(s, e))
  {
    var next := Apply(s, e);
    forall u | 0 <= u < |next.threads| ensures ThreadOk(next.store, u, next.threads[u]) {
      if !e.CloseMe? && !e.Clean? && e.t == u {
        if InCall(e) {
          OwnInCall(s, e);
        } else if Starts(e) {
          OwnStart(s, e);
        } else {
          OwnEnd(s, e);
        }
      } else {
        OtherThreadOk(s, e, u);
      }
    }
  }

  lemma RegisteredStep(s: State, e: Event)
    requires Enabled(s, e) && Inv(s)
    ensures Registered(Apply(s, e))
  {
  }

  lemma InsertUnique(s: State, e: Event)
    requires Enabled(s, e) && Inv(s) && e.Insert?
    ensures Unique(Apply(s, e))
  {
  }

  lemma OtherStep(s: State, e: Event, t: nat)
    requires Enabled(s, e) && Inv(s) && !e.Insert? && !e.Make? && !e.Begin? && t < |s.threads|
    ensures var th := Apply(s, e).threads[t]; (th.pc.Made? ==> th == s.threads[t]) && (th.sid.None? || th.sid == s.threads[t].sid)
  {
  }

  lemma OtherSessions(s: State, e: Event)
    requires Enabled(s, e) && Inv(s) && !e.Insert?
    ensures forall id :: id in Apply(s, e).sessions ==> id in s.sessions && Apply(s, e).sessions[id] == s.sessions[id]
  {
  }

  lemma OtherUnique(s: State, e: Event)
    requires Enabled(s, e) && Inv(s) && !e.Insert? && !e.Make? && !e.Begin?
    ensures Unique(Apply(s, e))
  {
    OtherSessions(s, e);
    forall t: nat | t < |s.threads|
      ensures var th := Apply(s, e).threads[t]; (th.pc.Made? ==> th == s.threads[t]) && (th.sid.None? || th.sid == s.threads[t].sid)
    {
      OtherStep(s, e, t);
    }
    NarrowedUnique(s, Apply(s, e));
  }

  lemma NarrowedUnique(s: State, next: State)
    requires Unique(s) && |next.threads| == |s.threads|
    requires forall id :: id in next.sessions ==> id in s.sessions && next.sessions[id] == s.sessions[id]
    requires forall t: nat :: t < |s.threads| ==>
               (next.threads[t].pc.Made? ==> next.threads[t] == s.threads[t]) &&
               (next.threads[t].sid.None? || next.threads[t].sid == s.threads[t].sid)
    ensures Unique(next)
  {
  }

  lemma MakeUnique(s: State, e: Event)
    requires Enabled(s, e) && Inv(s) && e.Make?
    ensures Unique(Apply(s, e))
  {
  }

  lemma BeginUnique(s: State, e: Event)
    requires Enabled(s, e) && Inv(s) && e.Begin?
    ensures Unique(Apply(s, e))
  {
  }

  /** Every step keeps the invariant. */
  lemma InvStep(s: State, e: Event)
    requires Enabled(s, e) && Inv(s)
    ensures Inv(Apply(s, e))
  {
    RegisteredStep(s, e);
    ThreadsStep(s, e);
    if e.Insert? {
      InsertUnique(s, e);
    } else if e.Make? {
      MakeUnique(s, e);
    } else if e.Begin? {
      BeginUnique(s, e);
    } else {
      OtherUnique(s, e);
    }
  }

  // ---------------------------------------------------------------- runs

  predicate Init(s: State) {
    s.sessions == map[] && s.store == [] && forall t :: 0 <= t < |s.threads| ==> s.threads[t] == Fresh("", true, Idle, None)
  }

  ghost predicate IsRun(states: seq<State>, events: seq<Event>) {
    |states| == |events| + 1 && Init(states[0]) &&
    forall k :: 0 <= k < |events| ==> Enabled(states[k], events[k]) && states[k + 1] == Apply(states[k], events[k])
  }

  lemma {:induction false} RunInv(states: seq<State>, events: seq<Event>, k: nat)
    requires IsRun(states, events) && k < |states|
    ensures Inv(states[k]) && |states[k].threads| == |states[0].threads|
    decreases k
  {
    if k > 0 {
      RunInv(states, events, k - 1);
      InvStep(states[k - 1], events[k - 1]);
    }
  }

  // ---------------------------------------------------------------- answers

  /** What a thread published to a session, in the order of the events. */
  function PublishedBy(events: seq<Event>, t: nat, sid: nat): seq<Buffer> {
    if events == [] then []
    else
      var e, before := events[|events| - 1], PublishedBy(events[..|events| - 1], t, sid);
      if e.Publish? && e.t == t && e.sid == sid then before + [e.data] else before
  }

  function ThrownBy(events: seq<Event>, t: nat): Option<Error> {
    if events == [] then None
    else
      var e := events[|events| - 1];
      if e.Throw? && e.t == t then Some(e.error) else ThrownBy(events[..|events| - 1], t)
  }

  /** At event c thread t called its client, and up to event k it has neither answered nor called again. */
  predicate CalledAt(events: seq<Event>, c: nat, k: nat, t: nat) {
    c < k <= |events| && events[c] == Call(t) &&
    forall i :: c < i < k ==> events[i] != Call(t) && events[i] != Answer(t)
  }

  predicate History(events: seq<Event>, c: nat, k: nat, t: nat, th: Thread) {
    CalledAt(events, c, k, t) && th.sid.Some? &&
    th.published == PublishedBy(events[c + 1..k], t, th.sid.value) && th.threw == ThrownBy(events[c + 1..k], t)
  }

  lemma SegmentStep(events: seq<Event>, c: nat, k: nat, t: nat, sid: nat)
    requires c < k < |events|
    ensures PublishedBy(events[c + 1..k + 1], t, sid) ==
            PublishedBy(events[c + 1..k], t, sid) +
            (if events[k].Publish? && events[k].t == t && events[k].sid == sid then [events[k].data] else [])
    ensures ThrownBy(events[c + 1..k + 1], t) ==
            if events[k].Throw? && events[k].t == t then Some(events[k].error) else ThrownBy(events[c + 1..k], t)
  {
    var seg := events[c + 1..k + 1];
    assert seg[..|seg| - 1] == events[c + 1..k];
  }

  /** How one event changes what is recorded of a call. */
  predicate Records(th: Thread, e: Event, t: nat, after: Thread) {
    th.called && e != Answer(t) && e != Call(t) && after.sid == th.sid &&
    (th.sid.Some? ==> after.published == th.published + (if e.Publish? && e.t == t && e.sid == th.sid.value then [e.data] else [])) &&
    after.threw == if e.Throw? && e.t == t then Some(e.error) else th.threw
  }

  lemma OwnRecord(s: State, e: Event, t: nat)
    requires Enabled(s, e) && !e.CloseMe? && !e.Clean? && e.t == t && ThreadOk(s.store, t, s.threads[t])
    requires ThreadAfter(s, e, s.threads[t]).called && e != Call(t)
    ensures Records(s.threads[t], e, t, ThreadAfter(s, e, s.threads[t]))
  {
  }

  lemma RecordStep(s: State, e: Event, t: nat)
    requires Enabled(s, e) && Inv(s) && t < |s.threads| && Apply(s, e).threads[t].called && e != Call(t)
    ensures Records(s.threads[t], e, t, Apply(s, e).threads[t])
  {
    if !e.CloseMe? && !e.Clean? && e.t == t {
      OwnRecord(s, e, t);
    }
  }

  lemma HistoryGrows(events: seq<Event>, c: nat, k: nat, t: nat, th: Thread, after: Thread)
    requires k < |events| && History(events, c, k, t, th) && Records(th, events[k], t, after)
    ensures History(events, c, k + 1, t, after)
  {
    SegmentStep(events, c, k, t, th.sid.value);
  }

  lemma {:induction false} CallHistory(states: seq<State>, events: seq<Event>, k: nat, t: nat)
    requires IsRun(states, events) && k < |states| && t < |states[k].threads|
    ensures states[k].threads[t].called ==> exists c :: History(events, c, k, t, states[k].threads[t])
    decreases k
  {
    RunInv(states, events, k);
    if k > 0 && states[k].threads[t].called {
      RunInv(states, events, k - 1);
      if events[k - 1] == Call(t) {
        assert events[k..k] == [];
        assert History(events, k - 1, k, t, states[k].threads[t]);
      } else {
        RecordStep(states[k - 1], events[k - 1], t);
        CallHistory(states, events, k - 1, t);
        var c :| History(events, c, k - 1, t, states[k - 1].threads[t]);
        HistoryGrows(events, c, k - 1, t, states[k - 1].threads[t], states[k].threads[t]);
      }
    }
  }

  /** The answer that the events of a call make. */
  predicate ToldBy(th: Thread, call: seq<Event>, t: nat)
    requires th.sid.Some?
  {
    match ThrownBy(call, t)
    case Some(e) => th.outcome == Failed(e)
    case None => th.outcome.Reply? && th.outcome.data == First(PublishedBy(call, t, th.sid.value))
  }

  /**
    A request that reached the client is answered by what the client did on this thread in this
    call: its exception, or the first buffer published, or nothing.
  */
  lemma AnswerIsOwn(states: seq<State>, events: seq<Event>, k: nat, t: nat)
    requires IsRun(states, events) && k < |states| && AtPc(states[k], t, Finished) && states[k].threads[t].called
    ensures var th := states[k].threads[t];
            th.sid.Some? && exists c :: CalledAt(events, c, k, t) && ToldBy(th, events[c + 1..k], t)
  {
    RunInv(states, events, k);
    assert ThreadOk(states[k].store, t, states[k].threads[t]);
    CallHistory(states, events, k, t);
  }

  /** A request that never reached the client fails. */
  lemma UncalledFails(states: seq<State>, events: seq<Event>, k: nat, t: nat)
    requires IsRun(states, events) && k < |states| && AtPc(states[k], t, Finished) && !states[k].threads[t].called
    ensures states[k].threads[t].outcome.Failed?
  {
    RunInv(states, events, k);
    assert ThreadOk(states[k].store, t, states[k].threads[t]);
  }

  // ---------------------------------------------------------------- one session for each id

  /** The step that gives a thread its session. */
  predicate Acquires(s: State, e: Event, next: State, t: nat, id: string, sid: nat) {
    ((e.Begin? && e.header == Some(id)) || e.Insert?) && e.t == t && AtPc(next, t, Ready) &&
    next.threads[t].id == id && next.threads[t].sid == Some(sid)
  }

  predicate Drops(s: State, next: State, id: string) {
    id in s.sessions && id !in next.sessions
  }

  /** A session leaves the table by a sweep that finds it dead, or by the removal at the end of a failed request. */
  lemma DropCauses(s: State, e: Event, id: string)
    requires Enabled(s, e) && Inv(s) && id in s.sessions
    ensures Drops(s, Apply(s, e), id) <==>
            (e.Clean? && (s.store[s.sessions[id]].close || e.now - s.store[s.sessions[id]].stamp >= e.timeout)) ||
            (e.Remove? && s.threads[e.t].id == id && id != "")
    ensures e.Remove? ==> s.threads[e.t].outcome.Failed?
  {
    if e.Remove? {
      assert ThreadOk(s.store, e.t, s.threads[e.t]);
    }
  }

  lemma {:induction false} StaysRegistered(states: seq<State>, events: seq<Event>, i: nat, j: nat, id: string)
    requires IsRun(states, events) && i <= j < |states| && id in states[i].sessions
    requires forall k :: i <= k < j ==> !Drops(states[k], states[k + 1], id)
    ensures id in states[j].sessions && states[j].sessions[id] == states[i].sessions[id]
    decreases j
  {
    if i < j {
      StaysRegistered(states, events, i, j - 1, id);
      assert !Drops(states[j - 1], states[j], id);
    }
  }

  lemma AcquiredIsRegistered(s: State, e: Event, t: nat, id: string, sid: nat)
    requires Enabled(s, e) && Inv(s) && Acquires(s, e, Apply(s, e), t, id, sid)
    ensures id in Apply(s, e).sessions && Apply(s, e).sessions[id] == sid
  {
  }

  /** Two requests with the same id and no removal between them work on the same session. */
  lemma SameSession(states: seq<State>, events: seq<Event>, i: nat, j: nat, t: nat, u: nat, id: string, a: nat, b: nat)
    requires IsRun(states, events) && i < j < |events|
    requires Acquires(states[i], events[i], states[i + 1], t, id, a) && Acquires(states[j], events[j], states[j + 1], u, id, b)
    requires forall k :: i < k <= j ==> !Drops(states[k], states[k + 1], id)
    ensures a == b
  {
    RunInv(states, events, i);
    RunInv(states, events, j);
    AcquiredIsRegistered(states[i], events[i], t, id, a);
    AcquiredIsRegistered(states[j], events[j], u, id, b);
    StaysRegistered(states, events, i + 1, j + 1, id);
  }

  /** In the other direction, a session serves one id only. */
  ghost predicate Retired(s: State, sid: nat) {
    sid < |s.store| && (forall id :: id in s.sessions ==> s.sessions[id] != sid) &&
    forall t :: 0 <= t < |s.threads| && s.threads[t].pc.Made? ==> s.threads[t].sid != Some(sid)
  }

  lemma RetiredStep(s: State, e: Event, sid: nat)
    requires Enabled(s, e) && Inv(s) && Retired(s, sid)
    ensures Retired(Apply(s, e), sid)
  {
    var next := Apply(s, e);
    if !e.Insert? {
      OtherSessions(s, e);
    }
    forall t | 0 <= t < |next.threads| && next.threads[t].pc.Made? ensures next.threads[t].sid != Some(sid) {
      MadeStep(s, e, t);
    }
  }

  lemma MadeStep(s: State, e: Event, t: nat)
    requires Enabled(s, e) && Inv(s) && t < |s.threads| && Apply(s, e).threads[t].pc.Made?
    ensures s.threads[t] == Apply(s, e).threads[t] || Apply(s, e).threads[t].sid == Some(|s.store|)
  {
  }

  lemma {:induction false} RetiredForGood(states: seq<State>, events: seq<Event>, i: nat, j: nat, sid: nat)
    requires IsRun(states, events) && i <= j < |states| && Retired(states[i], sid)
    ensures Retired(states[j], sid)
    decreases j
  {
    if i < j {
      RetiredForGood(states, events, i, j - 1, sid);
      RetiredNext(states, events, j - 1, sid);
    }
  }

  lemma RetiredNext(states: seq<State>, events: seq<Event>, n: nat, sid: nat)
    requires IsRun(states, events) && n < |events| && Retired(states[n], sid)
    ensures Retired(states[n + 1], sid)
  {
    RunInv(states, events, n);
    RetiredStep(states[n], events[n], sid);
  }

  lemma DropRetires(s: State, e: Event, id: string)
    requires Enabled(s, e) && Inv(s) && Drops(s, Apply(s, e), id)
    ensures Retired(Apply(s, e), s.sessions[id])
  {
    DropCauses(s, e, id);
    var sid, next := s.sessions[id], Apply(s, e);
    assert forall other :: other in next.sessions ==> other in s.sessions && next.sessions[other] == s.sessions[other];
  }

  /** A session removed from the table is never given to a later request, under any id. */
  lemma RemovedStaysRemoved(states: seq<State>, events: seq<Event>, i: nat, j: nat, id: string, t: nat, other: string, sid: nat)
    requires IsRun(states, events) && i < j < |events| && Drops(states[i], states[i + 1], id)
    requires Acquires(states[j], events[j], states[j + 1], t, other, sid)
    ensures sid != states[i].sessions[id]
  {
    RunInv(states, events, i);
    RunInv(states, events, j);
    DropRetires(states[i], events[i], id);
    RetiredForGood(states, events, i + 1, j + 1, states[i].sessions[id]);
    AcquiredIsRegistered(states[j], events[j], t, other, sid);
  }

  /** The session made by the loser of a race is never given to any request. */
  lemma LoserIsDiscarded(states: seq<State>, events: seq<Event>, i: nat, j: nat, t: nat, other: string, sid: nat)
    requires IsRun(states, events) && i < j < |events| && events[i].Insert?
    requires states[i].threads[events[i].t].id in states[i].sessions
    requires Acquires(states[j], events[j], states[j + 1], t, other, sid)
    ensures states[i].threads[events[i].t].sid != Some(sid) && states[i + 1].threads[events[i].t].sid != states[i].threads[events[i].t].sid
  {
    RunInv(states, events, i);
    RunInv(states, events, j);
    var s, loser := states[i], events[i].t;
    assert ThreadOk(s.store, loser, s.threads[loser]);
    RaceLost(s, events[i]);
    RetiredForGood(states, events, i + 1, j + 1, s.threads[loser].sid.value);
    AcquiredIsRegistered(states[j], events[j], t, other, sid);
  }

  lemma RaceLost(s: State, e: Event)
    requires Enabled(s, e) && Inv(s) && e.Insert? && s.threads[e.t].id in s.sessions
    ensures Retired(Apply(s, e), s.threads[e.t].sid.value)
    ensures Apply(s, e).threads[e.t].sid != s.threads[e.t].sid
  {
  }
}
