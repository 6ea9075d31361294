/** Time stamps, flags, sweeps and session headers over whole runs of the servlet, told by its events. */
module ServletRuns {
  import opened Basics
  import opened Servlet

  // ---------------------------------------------------------------- what the events say of a session

  /** The step completes a call on the session, or makes it. */
  function Touch(s: State, e: Event, sid: nat): Option<int> {
    if e.Return? && e.t < |s.threads| && s.threads[e.t].sid == Some(sid) then Some(e.now)
    else if e.Make? && sid == |s.store| then Some(e.now)
    else None
  }

  /** The time of the last completed call on a session, or of its making. */
  function LastTouch(states: seq<State>, events: seq<Event>, n: nat, sid: nat): Option<int>
    requires n <= |events| && n < |states|
    decreases n
  {
    if n == 0 then None
    else if Touch(states[n - 1], events[n - 1], sid).Some? then Touch(states[n - 1], events[n - 1], sid)
    else LastTouch(states, events, n - 1, sid)
  }

  /** The step flags the session: its client asks for it, or a call on it failed. */
  predicate Flags(s: State, e: Event, sid: nat) {
    (e.CloseMe? && e.sid == sid) || (e.Flag? && e.t < |s.threads| && s.threads[e.t].sid == Some(sid))
  }

  ghost predicate Flagged(states: seq<State>, events: seq<Event>, n: nat, sid: nat) {
    n <= |events| && n < |states| && exists k :: 0 <= k < n && Flags(states[k], events[k], sid)
  }

  lemma StampStep(s: State, e: Event, sid: nat)
    requires Enabled(s, e) && sid < |StoreAfter(s, e)|
    ensures sid < |s.store| || (e.Make? && sid == |s.store|)
    ensures StoreAfter(s, e)[sid].stamp == if Touch(s, e, sid).Some? then Touch(s, e, sid).value else s.store[sid].stamp
    ensures StoreAfter(s, e)[sid].close == if sid < |s.store| then s.store[sid].close || Flags(s, e, sid) else false
  {
  }

  /** The time stamp is that of the last completed call, and the flag is set by an earlier event or not at all. */
  lemma {:induction false} StampIsLastTouch(states: seq<State>, events: seq<Event>, n: nat, sid: nat)
    requires IsRun(states, events) && n < |states| && sid < |states[n].store|
    ensures LastTouch(states, events, n, sid) == Some(states[n].store[sid].stamp)
    ensures states[n].store[sid].close <==> Flagged(states, events, n, sid)
    decreases n
  {
    if n > 0 {
      StampStep(states[n - 1], events[n - 1], sid);
      if sid < |states[n - 1].store| {
        StampIsLastTouch(states, events, n - 1, sid);
      } else {
        NotYetFlagged(states, events, n, sid);
      }
      FlaggedNext(states, events, n - 1, sid);
    }
  }

  lemma FlaggedNext(states: seq<State>, events: seq<Event>, n: nat, sid: nat)
    requires n < |events| && n + 1 < |states|
    ensures Flagged(states, events, n + 1, sid) <==> Flagged(states, events, n, sid) || Flags(states[n], events[n], sid)
  {
  }

  /** No session is flagged before it is made. */
  lemma {:induction false} NotYetFlagged(states: seq<State>, events: seq<Event>, n: nat, sid: nat)
    requires IsRun(states, events) && 0 < n < |states| && sid >= |states[n - 1].store|
    ensures !Flagged(states, events, n, sid)
    decreases n
  {
    forall k | 0 <= k < n ensures !Flags(states[k], events[k], sid) {
      StoreGrows(states, events, k, n - 1);
      RunInv(states, events, k);
      FlagsKnown(states[k], events[k], sid);
    }
  }

  lemma FlagsKnown(s: State, e: Event, sid: nat)
    requires Enabled(s, e) && Inv(s) && sid >= |s.store|
    ensures !Flags(s, e, sid)
  {
    if e.Flag? {
      assert ThreadOk(s.store, e.t, s.threads[e.t]);
    }
  }

  lemma {:induction false} StoreGrows(states: seq<State>, events: seq<Event>, i: nat, j: nat)
    requires IsRun(states, events) && i <= j < |states|
    ensures |states[i].store| <= |states[j].store|
    decreases j
  {
    if i < j {
      StoreGrows(states, events, i, j - 1);
      StoreStep(states[j - 1], events[j - 1]);
    }
  }

  lemma StoreStep(s: State, e: Event)
    requires Enabled(s, e)
    ensures |s.store| <= |Apply(s, e).store|
  {
  }

  // ---------------------------------------------------------------- sweeps

  /**
    A sweep keeps a session exactly when nothing has flagged it and less than the timeout has passed
    since the last completed call on it.
  */
  lemma SweepKeepsIff(states: seq<State>, events: seq<Event>, n: nat, id: string)
    requires IsRun(states, events) && n < |events| && events[n].Clean? && id in states[n].sessions
    ensures LastTouch(states, events, n, states[n].sessions[id]).Some?
    ensures id in states[n + 1].sessions <==>
            !Flagged(states, events, n, states[n].sessions[id]) &&
            events[n].now - LastTouch(states, events, n, states[n].sessions[id]).value < events[n].timeout
  {
    RunInv(states, events, n);
    DropCauses(states[n], events[n], id);
    StampIsLastTouch(states, events, n, states[n].sessions[id]);
  }

  /** The step does not take a live session away. */
  ghost predicate Spares(states: seq<State>, events: seq<Event>, k: nat, id: string, sid: nat)
    requires k < |events| && k < |states|
  {
    !(events[k].Remove? && events[k].t < |states[k].threads| && states[k].threads[events[k].t].id == id) &&
    (events[k].Clean? ==>
       !Flagged(states, events, k, sid) && LastTouch(states, events, k, sid).Some? &&
       events[k].now - LastTouch(states, events, k, sid).value < events[k].timeout)
  }

  /** A session that nothing flags and no failed request removes survives every sweep in time. */
  lemma {:induction false} SessionSurvives(states: seq<State>, events: seq<Event>, i: nat, j: nat, id: string)
    requires IsRun(states, events) && i <= j < |states| && id in states[i].sessions
    requires forall k :: i <= k < j ==> Spares(states, events, k, id, states[i].sessions[id])
    ensures id in states[j].sessions && states[j].sessions[id] == states[i].sessions[id]
    decreases j
  {
    if i < j {
      SessionSurvives(states, events, i, j - 1, id);
      SurvivesStep(states, events, j - 1, id);
    }
  }

  lemma SurvivesStep(states: seq<State>, events: seq<Event>, n: nat, id: string)
    requires IsRun(states, events) && n < |events| && id in states[n].sessions
    requires Spares(states, events, n, id, states[n].sessions[id])
    ensures id in states[n + 1].sessions && states[n + 1].sessions[id] == states[n].sessions[id]
  {
    RunInv(states, events, n);
    if events[n].Clean? {
      SweepKeepsIff(states, events, n, id);
    } else {
      DropCauses(states[n], events[n], id);
    }
    StayedSame(states[n], events[n], id);
  }

  lemma StayedSame(s: State, e: Event, id: string)
    requires Enabled(s, e) && id in s.sessions && id in Apply(s, e).sessions
    ensures Apply(s, e).sessions[id] == s.sessions[id]
  {
  }

  // ---------------------------------------------------------------- the session header

  /** Event c looks at the flag for thread t's request, and the request has not been answered since. */
  predicate CheckedAt(events: seq<Event>, c: nat, n: nat, t: nat) {
    c < n <= |events| && events[c] == Check(t) && forall i :: c < i < n ==> events[i] != Check(t) && events[i] != Answer(t)
  }

  predicate ClosedThen(s: State, t: nat) {
    t < |s.threads| && s.threads[t].sid.Some? && s.threads[t].sid.value < |s.store| && s.store[s.threads[t].sid.value].close
  }

  predicate Told(th: Thread) {
    th.pc.Closing? || (th.pc.Finished? && th.outcome.Reply?)
  }

  /** What the thread says of the flag agrees with how the session was in this state. */
  predicate Agrees(s: State, t: nat, th: Thread) {
    if th.pc.Closing? then ClosedThen(s, t) else th.pc.Finished? && th.outcome.Reply? && th.outcome.header == !ClosedThen(s, t)
  }

  predicate ToldAt(states: seq<State>, events: seq<Event>, c: nat, n: nat, t: nat, th: Thread) {
    CheckedAt(events, c, n, t) && c < |states| && Agrees(states[c], t, th)
  }

  lemma OwnHeader(s: State, e: Event, t: nat)
    requires Enabled(s, e) && !e.CloseMe? && !e.Clean? && e.t == t && ThreadOk(s.store, t, s.threads[t])
    requires Told(ThreadAfter(s, e, s.threads[t]))
    ensures var th, after := s.threads[t], ThreadAfter(s, e, s.threads[t]);
            e != Answer(t) &&
            if e == Check(t) then Agrees(s, t, after) else Told(th) && forall x :: Agrees(x, t, th) ==> Agrees(x, t, after)
  {
  }

  /** What the step does to the thread, as far as the header goes. */
  lemma HeaderStep(s: State, e: Event, t: nat)
    requires Enabled(s, e) && Inv(s) && t < |s.threads| && Told(Apply(s, e).threads[t])
    ensures var th, after := s.threads[t], Apply(s, e).threads[t];
            e != Answer(t) &&
            if e == Check(t) then Agrees(s, t, after) else Told(th) && forall x :: Agrees(x, t, th) ==> Agrees(x, t, after)
  {
    assert ThreadOk(s.store, t, s.threads[t]);
    if !e.CloseMe? && !e.Clean? && e.t == t {
      OwnHeader(s, e, t);
    }
  }

  ghost predicate TellsTrue(states: seq<State>, events: seq<Event>, n: nat, t: nat, th: Thread) {
    Told(th) ==> exists c :: ToldAt(states, events, c, n, t, th)
  }

  lemma ToldLater(states: seq<State>, events: seq<Event>, c: nat, n: nat, t: nat, th: Thread, after: Thread)
    requires n < |events| && ToldAt(states, events, c, n, t, th) && events[n] != Check(t) && events[n] != Answer(t)
    requires forall x :: Agrees(x, t, th) ==> Agrees(x, t, after)
    ensures ToldAt(states, events, c, n + 1, t, after)
  {
  }

  lemma ToldNext(states: seq<State>, events: seq<Event>, n: nat, t: nat)
    requires IsRun(states, events) && n < |events| && t < |states[n].threads|
    requires TellsTrue(states, events, n, t, states[n].threads[t])
    ensures TellsTrue(states, events, n + 1, t, states[n + 1].threads[t])
  {
    RunInv(states, events, n);
    ToldStep(states, events, n, t, Apply(states[n], events[n]).threads[t]);
  }

  lemma ToldStep(states: seq<State>, events: seq<Event>, n: nat, t: nat, after: Thread)
    requires n < |events| && n < |states| && Enabled(states[n], events[n]) && Inv(states[n]) && t < |states[n].threads|
    requires after == Apply(states[n], events[n]).threads[t] && TellsTrue(states, events, n, t, states[n].threads[t])
    ensures TellsTrue(states, events, n + 1, t, after)
  {
    if Told(after) {
      HeaderStep(states[n], events[n], t);
      if events[n] == Check(t) {
        assert ToldAt(states, events, n, n + 1, t, after);
      } else {
        var c :| ToldAt(states, events, c, n, t, states[n].threads[t]);
        ToldLater(states, events, c, n, t, states[n].threads[t], after);
      }
    }
  }

  lemma {:induction false} HeaderHistory(states: seq<State>, events: seq<Event>, n: nat, t: nat)
    requires IsRun(states, events) && n < |states| && t < |states[n].threads|
    ensures TellsTrue(states, events, n, t, states[n].threads[t])
    decreases n
  {
    if n > 0 {
      HeaderHistory(states, events, n - 1, t);
      ToldNext(states, events, n - 1, t);
    }
  }

  /** A reply names its session in the header exactly when the session was not flagged when the servlet looked. */
  lemma HeaderIff(states: seq<State>, events: seq<Event>, n: nat, t: nat)
    requires IsRun(states, events) && n < |states| && AtPc(states[n], t, Finished) && states[n].threads[t].outcome.Reply?
    ensures exists c: nat :: CheckedAt(events, c, n, t) && c < |states| &&
                             (states[n].threads[t].outcome.header <==> !ClosedThen(states[c], t))
  {
    HeaderHistory(states, events, n, t);
    var c :| ToldAt(states, events, c, n, t, states[n].threads[t]);
  }

  // ---------------------------------------------------------------- requests that never reach the client

  /** Event b is the start of thread t's current request. */
  predicate BegunAt(events: seq<Event>, b: nat, n: nat, t: nat) {
    b < n <= |events| && events[b].Begin? && events[b].t == t && forall i :: b < i < n ==> events[i] != Answer(t)
  }

  predicate FactoryFailed(events: seq<Event>, b: nat, n: nat, t: nat, error: Error) {
    n <= |events| && exists i :: b < i < n && events[i] == FactoryFails(t, error)
  }

  /** Why a request with a session id fails before its client is called. */
  predicate NotCalled(events: seq<Event>, b: nat, n: nat, t: nat, empty: bool, error: Error) {
    (empty && error == Invalid("No input data.")) || FactoryFailed(events, b, n, t, error)
  }

  predicate FromBegin(events: seq<Event>, b: nat, n: nat, t: nat, th: Thread) {
    BegunAt(events, b, n, t) &&
    match events[b].header
    case None => th.pc.Finished? && !th.called && th.outcome == Failed(Invalid("Session not found."))
    case Some(id) =>
      if id == "" then th.pc.Finished? && !th.called && th.outcome == Failed(Invalid("Empty session."))
      else th.id == id && FromId(events, b, n, t, events[b].empty, th)
  }

  predicate FromId(events: seq<Event>, b: nat, n: nat, t: nat, empty: bool, th: Thread) {
    th.empty == empty && (th.called || th.pc.Cleaned? ==> !empty) &&
    (th.pc.Removing? || th.pc.Finished? ==>
       !th.called ==> th.outcome.Failed? && NotCalled(events, b, n, t, empty, th.outcome.error))
  }

  ghost predicate Begun(events: seq<Event>, n: nat, t: nat, th: Thread) {
    !th.pc.Idle? ==> exists b :: FromBegin(events, b, n, t, th)
  }

  /** A later step of the same request, in the part that has a session id. */
  lemma OwnNext(s: State, events: seq<Event>, b: nat, n: nat, t: nat, empty: bool)
    requires b < n < |events| && Enabled(s, events[n]) && !events[n].CloseMe? && !events[n].Clean? && events[n].t == t
    requires ThreadOk(s.store, t, s.threads[t]) && !events[n].Begin? && !events[n].Answer?
    requires !s.threads[t].pc.Finished? && FromId(events, b, n, t, empty, s.threads[t])
    ensures var after := ThreadAfter(s, events[n], s.threads[t]);
            FromId(events, b, n + 1, t, empty, after) && after.id == s.threads[t].id
  {
    var th, after := s.threads[t], ThreadAfter(s, events[n], s.threads[t]);
    if events[n].FactoryFails? {
      assert FactoryFailed(events, b, n + 1, t, after.outcome.error);
    } else if th.pc.Removing? && !th.called {
      assert NotCalled(events, b, n + 1, t, empty, th.outcome.error);
    }
  }

  lemma SameNext(events: seq<Event>, b: nat, n: nat, t: nat, th: Thread)
    requires n < |events| && events[n] != Answer(t) && FromBegin(events, b, n, t, th)
    ensures FromBegin(events, b, n + 1, t, th)
  {
  }

  lemma BeginNext(s: State, events: seq<Event>, b: nat, n: nat, t: nat)
    requires n < |events| && Enabled(s, events[n]) && t < |s.threads| && ThreadOk(s.store, t, s.threads[t])
    requires !events[n].CloseMe? && !events[n].Clean? && events[n].t == t
    requires FromBegin(events, b, n, t, s.threads[t]) && !s.threads[t].pc.Idle? && events[n] != Answer(t)
    ensures FromBegin(events, b, n + 1, t, ThreadAfter(s, events[n], s.threads[t]))
  {
    OwnNext(s, events, b, n, t, events[b].empty);
  }

  lemma BeginStep(s: State, events: seq<Event>, n: nat, t: nat)
    requires n < |events| && Enabled(s, events[n]) && Inv(s) && t < |s.threads| && Begun(events, n, t, s.threads[t])
    ensures Begun(events, n + 1, t, Apply(s, events[n]).threads[t])
  {
    var e, th := events[n], s.threads[t];
    assert ThreadOk(s.store, t, th);
    if e.CloseMe? || e.Clean? || e.t != t {
      if !th.pc.Idle? {
        var b :| FromBegin(events, b, n, t, th);
        SameNext(events, b, n, t, th);
      }
    } else if e.Begin? {
      assert FromBegin(events, n, n + 1, t, ThreadAfter(s, e, th));
    } else if !th.pc.Idle? && !e.Answer? {
      var b :| FromBegin(events, b, n, t, th);
      BeginNext(s, events, b, n, t);
    }
  }

  lemma {:induction false} BeginHistory(states: seq<State>, events: seq<Event>, n: nat, t: nat)
    requires IsRun(states, events) && n < |states| && t < |states[n].threads|
    ensures Begun(events, n, t, states[n].threads[t])
    decreases n
  {
    if n > 0 {
      BeginHistory(states, events, n - 1, t);
      RunInv(states, events, n - 1);
      BeginStep(states[n - 1], events, n - 1, t);
    }
  }

  /** Why a request fails before its client is called. */
  predicate EarlyFailure(events: seq<Event>, b: nat, n: nat, t: nat, error: Error)
    requires b < |events| && events[b].Begin?
  {
    match events[b].header
    case None => error == Invalid("Session not found.")
    case Some(id) =>
      if id == "" then error == Invalid("Empty session.") else NotCalled(events, b, n, t, events[b].empty, error)
  }

  /**
    A request that ended without a call of the client had no session in its header, an empty one, or
    no data, or its session could not be made; the error says which. A request without data never
    reaches the client.
  */
  lemma EarlyFailures(states: seq<State>, events: seq<Event>, n: nat, t: nat)
    requires IsRun(states, events) && n < |states| && AtPc(states[n], t, Finished)
    ensures var th := states[n].threads[t];
            exists b: nat :: BegunAt(events, b, n, t) &&
              (th.called ==> !events[b].empty && events[b].header == Some(th.id) && th.id != "") &&
              (!th.called ==> th.outcome.Failed? && EarlyFailure(events, b, n, t, th.outcome.error))
  {
    BeginHistory(states, events, n, t);
    var b :| FromBegin(events, b, n, t, states[n].threads[t]);
  }

  // ---------------------------------------------------------------- failed requests

  /** Event r removes the session of thread t's request from the table, and the request is not answered yet. */
  predicate RemovedAt(states: seq<State>, events: seq<Event>, r: nat, n: nat, t: nat, id: string) {
    r < n <= |events| && r + 1 < |states| && events[r] == Remove(t) && id !in states[r + 1].sessions &&
    forall i :: r < i < n ==> events[i] != Answer(t)
  }

  /** A failure with a session id, and no other outcome, follows a removal. */
  ghost predicate Removed(states: seq<State>, events: seq<Event>, n: nat, t: nat, th: Thread) {
    (th.pc.Removing? ==> th.id != "") &&
    if th.pc.Finished? && th.outcome.Failed? && th.id != "" then exists r :: RemovedAt(states, events, r, n, t, th.id)
    else NoRemoval(events, n, t)
  }

  ghost predicate NoRemoval(events: seq<Event>, n: nat, t: nat) {
    n <= |events| && forall r :: 0 <= r < n && events[r] == Remove(t) ==> exists i :: r < i < n && events[i] == Answer(t)
  }

  lemma NoRemovalLater(events: seq<Event>, n: nat, t: nat)
    requires n < |events| && NoRemoval(events, n, t) && events[n] != Remove(t)
    ensures NoRemoval(events, n + 1, t)
  {
    forall r | 0 <= r < n + 1 && events[r] == Remove(t) ensures exists i :: r < i < n + 1 && events[i] == Answer(t) {
      var i :| r < i < n && events[i] == Answer(t);
    }
  }

  lemma OwnRemoved(s: State, e: Event, t: nat)
    requires Enabled(s, e) && !e.CloseMe? && !e.Clean? && e.t == t && ThreadOk(s.store, t, s.threads[t]) && e != Remove(t) && e != Answer(t)
    ensures var th, after := s.threads[t], ThreadAfter(s, e, s.threads[t]);
            !th.pc.Finished? && !(after.pc.Finished? && after.outcome.Failed? && after.id != "") && (after.pc.Removing? ==> after.id != "")
  {
  }

  lemma RemovedStep(states: seq<State>, events: seq<Event>, n: nat, t: nat, after: Thread)
    requires n < |events| && n + 1 < |states| && Enabled(states[n], events[n]) && Inv(states[n]) && t < |states[n].threads|
    requires after == Apply(states[n], events[n]).threads[t] && states[n + 1].sessions == SessionsAfter(states[n], events[n])
    requires Removed(states, events, n, t, states[n].threads[t])
    ensures Removed(states, events, n + 1, t, after)
  {
    var s, e, th := states[n], events[n], states[n].threads[t];
    assert ThreadOk(s.store, t, th);
    if e == Remove(t) {
      assert RemovedAt(states, events, n, n + 1, t, th.id);
    } else if e == Answer(t) {
      assert NoRemoval(events, n + 1, t);
    } else if e.CloseMe? || e.Clean? || e.t != t {
      if th.pc.Finished? && th.outcome.Failed? && th.id != "" {
        var r :| RemovedAt(states, events, r, n, t, th.id);
        assert RemovedAt(states, events, r, n + 1, t, th.id);
      } else {
        NoRemovalLater(events, n, t);
      }
    } else {
      OwnRemoved(s, e, t);
      NoRemovalLater(events, n, t);
    }
  }

  lemma {:induction false} RemovedHistory(states: seq<State>, events: seq<Event>, n: nat, t: nat)
    requires IsRun(states, events) && n < |states| && t < |states[n].threads|
    ensures Removed(states, events, n, t, states[n].threads[t])
    decreases n
  {
    if n > 0 {
      RemovedHistory(states, events, n - 1, t);
      RunInv(states, events, n - 1);
      RemovedStep(states, events, n - 1, t, states[n].threads[t]);
    }
  }

  /**
    Every request that fails with a session id has taken the session of that id out of the table; one
    that gets a reply, or fails without an id, has removed nothing.
  */
  lemma FailureRemoves(states: seq<State>, events: seq<Event>, n: nat, t: nat)
    requires IsRun(states, events) && n < |states| && AtPc(states[n], t, Finished)
    ensures var th := states[n].threads[t];
            if th.outcome.Failed? && th.id != "" then exists r :: RemovedAt(states, events, r, n, t, th.id)
            else NoRemoval(events, n, t)
  {
    RemovedHistory(states, events, n, t);
  }

  // ---------------------------------------------------------------- new sessions

  /** Thread t's request began at event b with an id that no session had. */
  predicate MissedAt(states: seq<State>, events: seq<Event>, b: nat, n: nat, t: nat, id: string) {
    BegunAt(events, b, n, t) && b < |states| && events[b].header == Some(id) && id !in states[b].sessions
  }

  ghost predicate Missing(states: seq<State>, events: seq<Event>, n: nat, t: nat, th: Thread) {
    th.pc.Missed? ==> exists b :: MissedAt(states, events, b, n, t, th.id)
  }

  lemma MissedStep(states: seq<State>, events: seq<Event>, n: nat, t: nat, after: Thread)
    requires n < |events| && n < |states| && Enabled(states[n], events[n]) && t < |states[n].threads|
    requires after == Apply(states[n], events[n]).threads[t] && Missing(states, events, n, t, states[n].threads[t])
    ensures Missing(states, events, n + 1, t, after)
  {
    var e, th := events[n], states[n].threads[t];
    if after.pc.Missed? {
      if th.pc.Missed? {
        var b :| MissedAt(states, events, b, n, t, th.id);
        assert MissedAt(states, events, b, n + 1, t, after.id);
      } else {
        assert MissedAt(states, events, n, n + 1, t, after.id);
      }
    }
  }

  lemma {:induction false} MissedHistory(states: seq<State>, events: seq<Event>, n: nat, t: nat)
    requires IsRun(states, events) && n < |states| && t < |states[n].threads|
    ensures Missing(states, events, n, t, states[n].threads[t])
    decreases n
  {
    if n > 0 {
      MissedHistory(states, events, n - 1, t);
      RunInv(states, events, n - 1);
      MissedStep(states, events, n - 1, t, states[n].threads[t]);
    }
  }

  /** A session is made only for a request whose id had none when the request began. */
  lemma MadeOnlyIfMissing(states: seq<State>, events: seq<Event>, n: nat)
    requires IsRun(states, events) && n < |events| && events[n].Make?
    ensures exists b :: MissedAt(states, events, b, n, events[n].t, states[n].threads[events[n].t].id)
  {
    assert Enabled(states[n], events[n]);
    MissedHistory(states, events, n, events[n].t);
  }

  // ---------------------------------------------------------------- progress

  predicate OwnStep(s: State, e: Event, t: nat) {
    !e.CloseMe? && !e.Clean? && !e.Publish? && e.t == t && Enabled(s, e)
  }

  /** The step that comes next on a thread, when the client returns and no factory fails. */
  function NextStep(t: nat, pc: Pc, now: int): Event {
    match pc
    case Idle => Begin(t, None, true)
    case Missed => Make(t, now)
    case Made => Insert(t)
    case Ready => Enter(t)
    case Cleaned => Call(t)
    case Running => Return(t, now)
    case Returned => Take(t)
    case Caught => Note(t)
    case Noted => Flag(t)
    case Leaving => Leave(t)
    case Checking => Check(t)
    case Closing => Collect(t)
    case Removing => Remove(t)
    case Finished => Answer(t)
  }

  /** No thread is ever stuck: whatever the others do, it has a next step. */
  lemma NoThreadStuck(states: seq<State>, events: seq<Event>, n: nat, t: nat, now: int)
    requires IsRun(states, events) && n < |states| && t < |states[n].threads|
    ensures OwnStep(states[n], NextStep(t, states[n].threads[t].pc, now), t)
  {
    RunInv(states, events, n);
    assert ThreadOk(states[n].store, t, states[n].threads[t]);
  }
}
