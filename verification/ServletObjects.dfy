/** The objects of the servlet, proved against the session functions of module Servlet. */
module ServletObjects {
  import opened Basics
  import opened Servlet

  ghost predicate OthersSame(x: Session, y: Session, t: nat) {
    forall u: nat :: u != t ==> SameSlots(x, y, u)
  }

  lemma OthersChain(x: Session, y: Session, z: Session, t: nat)
    requires OthersSame(x, y, t) && OthersSame(y, z, t)
    ensures OthersSame(x, z, t)
  {
    forall u: nat | u != t ensures SameSlots(x, z, u) {
      assert SameSlots(x, y, u) && SameSlots(y, z, u);
    }
  }

  class LiveSession {
    var stamp: int
    var close: bool
    var responses: map<nat, Buffer>
    var exceptions: map<nat, ExceptionPtr>

    ghost function Value(): Session
      reads this
    {
      Session(stamp, close, responses, exceptions)
    }

    constructor (now: int)
      ensures Value() == NewSession(now)
    {
      stamp, close, responses, exceptions := now, false, map[], map[];
    }

    /** The first buffer of a thread wins. */
    method Publish(t: nat, data: Buffer)
      modifies this
      ensures Value() == Published(old(Value()), t, data)
    {
      if t !in responses {
        responses := responses[t := data];
      }
    }

    method CloseMe()
      modifies this
      ensures Value() == Closed(old(Value()))
    {
      close := true;
    }

    /** Find and erase: no response of this thread is left, and nothing else changes. */
    method CleanResponse(t: nat)
      modifies this
      ensures t !in responses
      ensures forall u :: u != t ==> (u in responses <==> u in old(responses))
      ensures forall u :: u in responses ==> responses[u] == old(responses)[u]
      ensures exceptions == old(exceptions) && close == old(close) && stamp == old(stamp)
      ensures Value() == ResponseCleaned(old(Value()), t)
    {
      if t in responses {
        responses := responses - {t};
      }
    }

    /** Find and erase, for the exception of this thread. */
    method ForgetException(t: nat)
      modifies this
      ensures t !in exceptions
      ensures forall u :: u != t ==> (u in exceptions <==> u in old(exceptions))
      ensures forall u :: u in exceptions ==> exceptions[u] == old(exceptions)[u]
      ensures responses == old(responses) && close == old(close) && stamp == old(stamp)
      ensures Value() == ExceptionForgotten(old(Value()), t)
    {
      if t in exceptions {
        exceptions := exceptions - {t};
      }
    }

    method GetException(t: nat) returns (ex: ExceptionPtr)
      modifies this
      ensures ex == Pending(old(Value()), t) && Value() == Collected(old(Value()), t)
    {
      ex := Null;
      if t in exceptions {
        ex := exceptions[t];
        exceptions := exceptions[t := Null];
      }
    }

    /**
      `OnData` on one thread, where `published` is what the client publishes during the call and
      `threw` what it throws at the end of it. None is an exception that is not caught here. The
      slots of this thread are left as a new call needs them, those of the others untouched.
    */
    method OnData(t: nat, published: seq<Buffer>, threw: Option<Error>, now: int) returns (res: Option<Buffer>)
      modifies this
      ensures res == (match threw case None => Some(First(published)) case Some(Unknown) => None case Some(_) => Some([]))
      ensures t !in responses && OthersSame(old(Value()), Value(), t)
      ensures Pending(Value(), t) == if threw.None? || threw.value.Unknown? then Null else Thrown(threw.value)
      ensures close == (old(close) || (threw.Some? && !threw.value.Unknown?))
      ensures stamp == if threw.None? then now else old(stamp)
    {
      CleanResponse(t);
      ForgetException(t);
      for i := 0 to |published|
        invariant SlotIs(Value(), t, published[..i]) && t !in exceptions
        invariant OthersSame(old(Value()), Value(), t)
        invariant close == old(close) && stamp == old(stamp)
      {
        ghost var before := Value();
        Publish(t, published[i]);
        OthersChain(old(Value()), before, Value(), t);
      }
      assert published[..|published|] == published;
      ghost var called := Value();
      if threw.None? {
        stamp := now;
        res := Some(if t in responses then responses[t] else []);
      } else if threw.value.Unknown? {
        res := None;
      } else {
        res := Some([]);
        if t !in exceptions {
          exceptions := exceptions[t := Thrown(threw.value)];
        }
        CloseMe();
      }
      CleanResponse(t);
      OthersChain(old(Value()), called, Value(), t);
    }
  }

  class SessionTable {
    var sessions: map<string, LiveSession>
    const timeout: nat

    constructor (timeout: nat)
      ensures sessions == map[] && this.timeout == timeout
    {
      sessions := map[];
      this.timeout := timeout;
    }

    /** The locked section after a session was made: the one already there is taken instead. */
    method FindOrInsert(id: string, made: LiveSession) returns (session: LiveSession)
      modifies this
      ensures id != "" ==> sessions == if id in old(sessions) then old(sessions) else old(sessions)[id := made]
      ensures id != "" ==> sessions[id] == session
      ensures id in old(sessions) ==> session == old(sessions)[id]
      ensures id !in old(sessions) ==> session == made
      ensures id == "" ==> sessions == old(sessions)
    {
      session := made;
      if id in sessions {
        session := sessions[id];
      } else if id != "" {
        sessions := sessions[id := made];
      }
    }

    method RemoveSession(id: string)
      modifies this
      ensures sessions == if id == "" then old(sessions) else map other | other in old(sessions) && other != id :: old(sessions)[other]
    {
      if id == "" {
        return;
      }
      if id in sessions {
        sessions := sessions - {id};
      }
    }

    /** A session that the table held and the sweep has to drop. */
    ghost predicate Garbage(x: LiveSession, table: map<string, LiveSession>, now: int)
      reads x
    {
      x in table.Values && Dead(x.Value(), now, timeout)
    }

    /** The sweep erases the closed and expired sessions, and no other, while it walks the table. */
    method OnCleaner(now: int) returns (garbage: seq<LiveSession>)
      modifies this
      ensures forall id :: id in sessions <==>
                           id in old(sessions) && !old(sessions)[id].close && now - old(sessions)[id].stamp < timeout
      ensures forall id :: id in sessions ==> sessions[id] == old(sessions)[id]
      ensures forall id :: id in old(sessions) && id !in sessions ==> old(sessions)[id] in garbage
      ensures forall i :: 0 <= i < |garbage| ==>
                garbage[i] in old(sessions).Values && (garbage[i].close || now - garbage[i].stamp >= timeout)
    {
      garbage := [];
      var rest := sessions.Keys;
      while rest != {}
        invariant rest <= sessions.Keys <= old(sessions).Keys
        invariant forall id :: id in sessions ==> sessions[id] == old(sessions)[id]
        invariant forall id :: id in old(sessions) && id !in rest ==> (id in sessions <==> !Dead(old(sessions)[id].Value(), now, timeout))
        invariant forall id :: id in old(sessions) && id !in sessions ==> old(sessions)[id] in garbage
        invariant forall i :: 0 <= i < |garbage| ==> Garbage(garbage[i], old(sessions), now)
        decreases |rest|
      {
        var id :| id in rest;
        rest := rest - {id};
        var dropped := Sweep(id, now);
        garbage := garbage + dropped;
      }
    }

    /** One step of the sweep: a closed or expired session is erased and handed out. */
    method Sweep(id: string, now: int) returns (dropped: seq<LiveSession>)
      requires id in sessions
      modifies this
      ensures var x := old(sessions)[id];
              if x.close || now - x.stamp >= timeout then sessions == old(sessions) - {id} && dropped == [x]
              else sessions == old(sessions) && dropped == []
    {
      var x := sessions[id];
      dropped := [];
      if x.close || now - x.stamp >= timeout {
        dropped := [x];
        sessions := sessions - {id};
      }
    }
  }
}
