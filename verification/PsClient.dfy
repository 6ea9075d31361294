/** The RPC peer as the object it is: two tables changed in place by the sections of `PsProtocol`. */
module PsClient {
  import opened Basics
  import opened PsProtocol

  /** What one look at the response table gives. */
  datatype Poll = Taken(message: Message) | Waiting | ConnectionClosed

  /** The four ways out of `Send`; all but the first are exceptions. */
  datatype Sent = Returned(message: Message) | NotPosted | ClosedDown | TimedOut

  /** A round of the wait loop: when it starts, what arrives and whether the connection closes before the look, and its clock. */
  datatype Round = Round(begin: int, arrivals: seq<Message>, closes: bool, now: int)

  class PSClient {
    const timeout: int
    const registered: set<Interface>
    var stubs: map<Id, Stub>
    var responses: map<Uuid, Stored>
    var closed: bool

    constructor (timeout: int, registered: set<Interface>)
      ensures this.timeout == timeout && this.registered == registered
      ensures stubs == map[Bootstrap := Stub(MANAGER_OBJECT, ManagerInterface)]
      ensures responses == map[] && !closed
    {
      this.timeout := timeout;
      this.registered := registered;
      stubs := map[Bootstrap := Stub(MANAGER_OBJECT, ManagerInterface)];
      responses := map[];
      closed := false;
    }

    /** The erase-while-iterating loop: exactly the expired entries go. */
    method CleanOldResponses(now: int)
      modifies this`responses
      ensures responses == Unexpired(old(responses), now, timeout)
      ensures forall u :: u in responses <==>
                          u in old(responses) && (now <= old(responses)[u].stamp || now - old(responses)[u].stamp <= timeout)
      ensures forall u :: u in responses ==> responses[u] == old(responses)[u]
    {
      var todo := responses.Keys;
      while todo != {}
        invariant todo <= responses.Keys <= old(responses).Keys
        invariant forall u :: u in responses ==> responses[u] == old(responses)[u]
        invariant forall u :: u in old(responses) && u !in todo ==>
                                (u in responses <==> !Expired(old(responses)[u], now, timeout))
        decreases todo
      {
        var u :| u in todo;
        todo := todo - {u};
        if Expired(responses[u], now, timeout) {
          responses := responses - {u};
        }
      }
    }

    /** `ProcessData` up to the stub call; None is an empty buffer. A response ends up in the table under its uuid. */
    method ProcessData(data: Option<Message>, stamp: int, now: int) returns (verdict: Verdict)
      modifies this`responses
      ensures verdict == if data.None? then Malformed else Receive(stubs, old(responses), data.value)
      ensures verdict.Malformed? <==>
                data.None? || data.value.head.uuid.NoUuid? || data.value.head.instance.NoId? ||
                data.value.head.interface.NoInterface? || data.value.head.name.NoName?
      ensures verdict.StoreIt? <==> !verdict.Malformed? && data.value.Response?
      ensures verdict.NotUnique? <==> !verdict.Malformed? && data.value.Request? && data.value.head.uuid in old(responses)
      ensures verdict.Dispatch? ==>
                data.value.Request? && data.value.head.instance in stubs && verdict.stub == stubs[data.value.head.instance] && verdict.stub.Stub?
      ensures verdict.NoInstance? ==> data.value.head.instance !in stubs || stubs[data.value.head.instance].NullStub?
      ensures verdict.StoreIt? ==>
                data.value.head.uuid in responses &&
                (data.value.head.uuid !in old(responses) ==> responses[data.value.head.uuid] == Stored(stamp, data.value))
      ensures verdict.StoreIt? ==>
                forall u :: u in old(responses) ==>
                  var expired := old(responses)[u].stamp < now && now - old(responses)[u].stamp > timeout;
                  (!expired ==> u in responses && responses[u] == old(responses)[u]) &&
                  (expired ==> (u in responses <==> u == data.value.head.uuid))
      ensures verdict.StoreIt? ==> forall u :: u in responses && u !in old(responses) ==> u == data.value.head.uuid
      ensures verdict.StoreIt? ==> responses == Store(old(responses), data.value, stamp, now, timeout)
      ensures !verdict.StoreIt? ==> responses == old(responses)
    {
      if data.None? {
        return Malformed;
      }
      var m := data.value;
      if m.head.uuid.NoUuid? || m.head.instance.NoId? || m.head.interface.NoInterface? || m.head.name.NoName? {
        return Malformed;
      }
      if m.Response? {
        CleanOldResponses(now);
        if m.head.uuid !in responses {
          responses := responses[m.head.uuid := Stored(stamp, m)];
        }
        return StoreIt;
      }
      if m.head.uuid in responses {
        return NotUnique;
      }
      if m.head.instance !in stubs || stubs[m.head.instance].NullStub? {
        return NoInstance;
      }
      return Dispatch(stubs[m.head.instance]);
    }

    /** The section of `Send` under the data lock: throw if closed, else take the response if it is there, then clean. */
    method TryTake(uuid: Uuid, now: int) returns (poll: Poll)
      modifies this`responses
      ensures poll.ConnectionClosed? <==> closed
      ensures closed ==> responses == old(responses)
      ensures !closed ==> (poll.Taken? <==> uuid in old(responses)) && responses == Unexpired(old(responses) - {uuid}, now, timeout)
      ensures poll.Taken? ==> poll.message == old(responses)[uuid].message && uuid !in responses
    {
      if closed {
        return ConnectionClosed;
      }
      poll := Waiting;
      if uuid in responses {
        poll := Taken(responses[uuid].message);
        responses := responses - {uuid};
      } else {
        assert responses - {uuid} == responses;
      }
      CleanOldResponses(now);
    }

    /**
      `Send`: post, then the wait loop. In each round, as long as the time limit is not over when it
      starts, worker threads pass `arrivals` to `ProcessData` and the connection may close; then the
      response is looked for.
    */
    method Send(uuid: Uuid, canPost: bool, start: int, rounds: seq<Round>) returns (sent: Sent)
      modifies this`responses, this`closed
      ensures sent.NotPosted? <==> old(closed) || !canPost
      ensures sent.ClosedDown? ==> closed && exists i :: 0 <= i < |rounds| && rounds[i].closes
      ensures sent.Returned? ==> !closed && uuid !in responses && Known(uuid, sent.message, old(responses), rounds)
      ensures sent.TimedOut? ==> forall i :: 0 <= i < |rounds| && (forall j :: 0 <= j <= i ==> rounds[j].begin - start < timeout) ==> !rounds[i].closes
      ensures sent.TimedOut? ==> uuid !in responses || rounds == [] || rounds[0].begin - start >= timeout
    {
      if closed || !canPost {
        return NotPosted;
      }
      var i := 0;
      while i < |rounds| && rounds[i].begin - start < timeout
        invariant 0 <= i <= |rounds| && !closed
        invariant uuid in responses ==> Known(uuid, responses[uuid].message, old(responses), rounds)
        invariant i > 0 ==> uuid !in responses
        invariant forall k :: 0 <= k < i ==> !rounds[k].closes && rounds[k].begin - start < timeout
      {
        var j := 0;
        while j < |rounds[i].arrivals|
          invariant 0 <= j <= |rounds[i].arrivals| && !closed
          invariant uuid in responses ==> Known(uuid, responses[uuid].message, old(responses), rounds)
        {
          var _ := ProcessData(Some(rounds[i].arrivals[j]), rounds[i].now, rounds[i].now);
          j := j + 1;
        }
        closed := closed || rounds[i].closes;
        var poll := TryTake(uuid, rounds[i].now);
        if poll.ConnectionClosed? {
          return ClosedDown;
        }
        if poll.Taken? {
          return Returned(poll.message);
        }
        i := i + 1;
      }
      return TimedOut;
    }

    /** Where a stored response can come from: the table at the start, or an arrival. */
    static ghost predicate Known(uuid: Uuid, m: Message, before: map<Uuid, Stored>, rounds: seq<Round>) {
      (uuid in before && m == before[uuid].message) ||
      (exists i, j :: 0 <= i < |rounds| && 0 <= j < |rounds[i].arrivals| && m == rounds[i].arrivals[j] &&
                      m.Response? && m.head.uuid == uuid)
    }

    /** `AppendStub` with the id the uuid generator produced; a null instance gets the empty id. */
    method AppendStub(instance: Option<int>, interface: Interface, generated: Id) returns (id: Id)
      modifies this`stubs
      ensures id == if instance.None? then NoId else generated
      ensures stubs == if instance.None? then old(stubs) else Insert(old(stubs), generated, NewStub(registered, instance.value, interface))
      ensures instance.Some? && generated !in old(stubs) ==>
                stubs == old(stubs)[generated := if interface in registered then Stub(instance.value, interface) else NullStub]
      ensures instance.None? || generated in old(stubs) ==> stubs == old(stubs)
    {
      if instance.None? {
        return NoId;
      }
      if generated in stubs {
        return generated;
      }
      var stub := if interface in registered then Stub(instance.value, interface) else NullStub;
      if generated !in stubs {
        stubs := stubs[generated := stub];
      }
      return generated;
    }

    method DestroyObject(instance: Id) returns (found: bool)
      modifies this`stubs
      ensures found <==> !instance.NoId? && instance in old(stubs)
      ensures stubs == if found then old(stubs) - {instance} else old(stubs)
    {
      if instance.NoId? || instance !in stubs {
        return false;
      }
      stubs := stubs - {instance};
      return true;
    }
  }
}
