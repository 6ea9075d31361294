/** The closed flag that gates every client of a chain. */
module NetClient {
  import opened Basics
  import opened Framing

  /** `hooks` counts the runs of the `Close` hook, `asked` the close requests passed to the control. */
  datatype State = State(closed: bool, hooks: nat, asked: nat, handled: seq<Bytes>, published: seq<Bytes>)

  datatype Outcome = Done | Refused | Threw

  /** A call on a client; `alive` says whether the weak pointer to control or publisher locks. */
  datatype Call = OnData(data: Bytes) | OnClose | CloseMe(alive: bool) | Post(data: Bytes, alive: bool)

  /** What `OnData` does with a buffer before any processing. */
  function Gate(closed: bool, data: Bytes): Outcome {
    if closed then Refused else if data == [] then Threw else Done
  }

  function Step(s: State, c: Call): State {
    match c
    case OnData(data) => if Gate(s.closed, data).Done? then s.(handled := s.handled + [data]) else s
    case OnClose => s.(closed := true, hooks := if s.closed then s.hooks + 1 else s.hooks)
    case CloseMe(alive) => if s.closed || !alive then s else s.(asked := s.asked + 1)
    case Post(data, alive) => if s.closed || !alive then s else s.(published := s.published + [data])
  }

  class Client {
    var closed: bool
    var hooks: nat
    var asked: nat
    var handled: seq<Bytes>
    var published: seq<Bytes>

    constructor ()
      ensures Now() == State(false, 0, 0, [], [])
    {
      closed, hooks, asked, handled, published := false, 0, 0, [], [];
    }

    function Now(): State
      reads this
    {
      State(closed, hooks, asked, handled, published)
    }

    method Receive(data: Bytes) returns (outcome: Outcome)
      modifies this
      ensures Now() == Step(old(Now()), OnData(data))
      ensures outcome == Gate(old(closed), data)
    {
      if closed {
        return Refused;
      }
      if data == [] {
        return Threw;
      }
      handled := handled + [data];
      return Done;
    }

    method NotifyClose()
      modifies this
      ensures Now() == Step(old(Now()), OnClose)
    {
      var needToClose := closed;
      closed := true;
      if needToClose {
        hooks := hooks + 1;
      }
    }

    method RequestClose(alive: bool) returns (ok: bool)
      modifies this
      ensures Now() == Step(old(Now()), CloseMe(alive))
      ensures ok == (!old(closed) && alive)
    {
      if closed {
        return false;
      }
      if alive {
        asked := asked + 1;
        return true;
      }
      return false;
    }

    method Publish(data: Bytes, alive: bool) returns (ok: bool)
      modifies this
      ensures Now() == Step(old(Now()), Post(data, alive))
      ensures ok == (!old(closed) && alive)
    {
      if closed {
        return false;
      }
      if alive {
        published := published + [data];
        return true;
      }
      return false;
    }
  }

  function Run(s: State, calls: seq<Call>): State
    decreases |calls|
  {
    if calls == [] then s else Run(Step(s, calls[0]), calls[1..])
  }

  function Closes(calls: seq<Call>): nat {
    if calls == [] then 0 else (if calls[0].OnClose? then 1 else 0) + Closes(calls[1..])
  }

  /** The calls before the first `OnClose`. */
  function Open(calls: seq<Call>): seq<Call> {
    if calls == [] || calls[0].OnClose? then [] else [calls[0]] + Open(calls[1..])
  }

  /**
    In every sequence of calls the hook runs once less often than `OnClose` is called, and
    nothing that comes after the first `OnClose` is handled, published or asked for.
  */
  lemma {:induction false} CloseGates(s: State, calls: seq<Call>)
    requires !s.closed
    ensures var end, open := Run(s, calls), Run(s, Open(calls));
            end.closed == (Closes(calls) > 0) &&
            end.hooks == s.hooks + (if Closes(calls) > 0 then Closes(calls) - 1 else 0) &&
            end.handled == open.handled && end.published == open.published && end.asked == open.asked
    decreases |calls|
  {
    if calls != [] {
      if calls[0].OnClose? {
        ClosedFrozen(Step(s, calls[0]), calls[1..]);
      } else {
        CloseGates(Step(s, calls[0]), calls[1..]);
        assert Open(calls)[1..] == Open(calls[1..]);
      }
    }
  }

  lemma {:induction false} ClosedFrozen(s: State, calls: seq<Call>)
    requires s.closed
    ensures Run(s, calls) == s.(hooks := s.hooks + Closes(calls))
    decreases |calls|
  {
    if calls != [] {
      ClosedFrozen(Step(s, calls[0]), calls[1..]);
    }
  }

  /** The buffers of a list of calls that an open client handles, those it publishes, and its close requests. */
  function Buffers(calls: seq<Call>): seq<Bytes> {
    if calls == [] then []
    else (if calls[0].OnData? && calls[0].data != [] then [calls[0].data] else []) + Buffers(calls[1..])
  }

  function Posted(calls: seq<Call>): seq<Bytes> {
    if calls == [] then []
    else (if calls[0].Post? && calls[0].alive then [calls[0].data] else []) + Posted(calls[1..])
  }

  function Requests(calls: seq<Call>): nat {
    if calls == [] then 0 else (if calls[0].CloseMe? && calls[0].alive then 1 else 0) + Requests(calls[1..])
  }

  /**
    Until it is closed, a client handles every buffer that is not empty and publishes every post and
    passes on every close request whose other side is alive, in order; nothing else.
  */
  lemma {:induction false} OpenDoesAll(s: State, calls: seq<Call>)
    requires !s.closed
    ensures var end, open := Run(s, calls), Open(calls);
            end.handled == s.handled + Buffers(open) && end.published == s.published + Posted(open) && end.asked == s.asked + Requests(open)
    decreases |calls|
  {
    if calls != [] {
      if calls[0].OnClose? {
        ClosedFrozen(Step(s, calls[0]), calls[1..]);
      } else {
        OpenDoesAll(Step(s, calls[0]), calls[1..]);
        OpenFirst(s, calls[0], Open(calls[1..]));
      }
    }
  }

  lemma OpenFirst(s: State, c: Call, rest: seq<Call>)
    requires !s.closed && !c.OnClose?
    ensures var next, all := Step(s, c), [c] + rest;
            next.handled + Buffers(rest) == s.handled + Buffers(all) && next.published + Posted(rest) == s.published + Posted(all) &&
            next.asked + Requests(rest) == s.asked + Requests(all)
  {
    assert ([c] + rest)[1..] == rest;
    match c
    case OnData(data) => Associate(s.handled, if data == [] then [] else [data], Buffers(rest));
    case Post(data, alive) => Associate(s.published, if alive then [data] else [], Posted(rest));
    case _ =>
  }
}
