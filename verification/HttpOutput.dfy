/** Chunked output of a response body: `OutputPack` hands out a buffer in portions. */
module HttpOutput {
  import opened Basics

  type Bytes = seq<int>

  /**
    The pack: the buffer (None is the null pointer), the offset of `m_bufferPtr` in it, and the
    body that is to be written next. `ready` says that the serializer exists.
  */
  datatype Pack = Pack(chunk: nat, ready: bool, buffer: Option<Bytes>, offset: nat, body: Bytes, more: bool)

  function NewPack(chunk: nat): Pack {
    Pack(chunk, false, None, 0, [], false)
  }

  /** `SetData`: short buffers are the body at once; others start empty with more to come. */
  function SetData(p: Pack, buffer: Option<Bytes>): Pack {
    if buffer.None? || buffer.value == [] then Pack(p.chunk, true, buffer, p.offset, [], false)
    else if |buffer.value| < p.chunk then Pack(p.chunk, true, buffer, 0, buffer.value, false)
    else Pack(p.chunk, true, buffer, 0, [], true)
  }

  predicate CanGoOn(p: Pack) {
    p.ready && p.more
  }

  /** A pack with more to come still has bytes to hand out. */
  predicate Valid(p: Pack) {
    p.more ==> p.ready && p.buffer.Some? && p.offset < |p.buffer.value|
  }

  function Next(p: Pack): Pack
    requires Valid(p) && CanGoOn(p)
  {
    var left := |p.buffer.value| - p.offset;
    var size := if left < p.chunk then left else p.chunk;
    Pack(p.chunk, p.ready, p.buffer, p.offset + size, p.buffer.value[p.offset..p.offset + size], left > p.chunk)
  }

  class OutputPack {
    const chunk: nat
    var ready: bool
    var buffer: Option<Bytes>
    var offset: nat
    var body: Bytes
    var more: bool

    constructor (chunk: nat)
      ensures State() == NewPack(chunk)
    {
      this.chunk := chunk;
      ready, buffer, offset, body, more := false, None, 0, [], false;
    }

    function State(): Pack
      reads this
    {
      Pack(chunk, ready, buffer, offset, body, more)
    }

    method Assign(data: Option<Bytes>)
      modifies this
      ensures State() == SetData(old(State()), data)
    {
      ready := false;
      buffer := data;
      if buffer.None? || buffer.value == [] {
        body, more := [], false;
      } else if |buffer.value| < chunk {
        body, more := buffer.value, false;
      } else {
        body, more := [], true;
      }
      ready := true;
      if buffer.Some? && buffer.value != [] {
        offset := 0;
      }
    }

    /** Throws, leaving the pack as it is, when there is no serializer or no more data. */
    method GetNextPortion() returns (ok: bool)
      requires Valid(State())
      modifies this
      ensures ok == CanGoOn(old(State()))
      ensures State() == if ok then Next(old(State())) else old(State())
    {
      if !ready {
        return false;
      }
      if !more {
        return false;
      }
      var left := |buffer.value| - offset;
      var size := if left < chunk then left else chunk;
      body := buffer.value[offset..offset + size];
      more := left > chunk;
      offset := offset + size;
      return true;
    }
  }

  /** The bodies written one after the other: the first, then the next portions while there are more. */
  function Portions(p: Pack): seq<Bytes>
    requires Valid(p) && p.chunk > 0
    decreases if p.more then 1 + |p.buffer.value| - p.offset else 0
  {
    if p.more then [p.body] + Portions(Next(p)) else [p.body]
  }

  function Joined(parts: seq<Bytes>): Bytes {
    if parts == [] then [] else parts[0] + Joined(parts[1..])
  }

  function NonEmpty(parts: seq<Bytes>): nat {
    if parts == [] then 0 else (if parts[0] == [] then 0 else 1) + NonEmpty(parts[1..])
  }

  /** The number of chunks of size c that n bytes need. */
  function CeilDiv(n: nat, c: nat): nat
    requires c > 0
  {
    if n == 0 then 0 else if n <= c then 1 else 1 + CeilDiv(n - c, c)
  }

  /** It is n / c, rounded up. */
  lemma {:induction false} CeilDivRoundsUp(n: nat, c: nat)
    requires c > 0
    ensures CeilDiv(n, c) * c >= n
    ensures n > 0 ==> (CeilDiv(n, c) - 1) * c < n
  {
    if n > c {
      CeilDivRoundsUp(n - c, c);
    }
  }

  /** What is still to be handed out after the current body. */
  function Remaining(p: Pack): Bytes
    requires Valid(p)
  {
    if p.more then p.buffer.value[p.offset..] else []
  }

  /** One portion is the next bytes of what remains, and no more than a chunk. */
  lemma NextTakes(p: Pack)
    requires Valid(p) && CanGoOn(p) && p.chunk > 0
    ensures Valid(Next(p)) && Next(p).offset <= |p.buffer.value| && Next(p).buffer == p.buffer
    ensures Remaining(p) == Next(p).body + Remaining(Next(p))
    ensures 0 < |Next(p).body| <= p.chunk
    ensures CeilDiv(|Remaining(p)|, p.chunk) == 1 + CeilDiv(|Remaining(Next(p))|, p.chunk)
  {
  }

  lemma {:induction false} PortionsCover(p: Pack)
    requires Valid(p) && p.chunk > 0
    ensures Joined(Portions(p)) == p.body + Remaining(p)
    ensures forall i :: 0 < i < |Portions(p)| ==> 0 < |Portions(p)[i]| <= p.chunk
    ensures Portions(p)[0] == p.body
    ensures NonEmpty(Portions(p)) == (if p.body == [] then 0 else 1) + CeilDiv(|Remaining(p)|, p.chunk)
    ensures |Portions(p)| == 1 + CeilDiv(|Remaining(p)|, p.chunk)
    decreases if p.more then 1 + |p.buffer.value| - p.offset else 0
  {
    if p.more {
      NextTakes(p);
      PortionsCover(Next(p));
      assert Portions(p)[1..] == Portions(Next(p));
    } else {
      assert Portions(p)[1..] == [];
    }
  }

  /**
    For every buffer and every positive chunk size the portions concatenate to the buffer, none
    exceeds the chunk size, and the non-empty ones are as many as chunks are needed.
  */
  lemma OutputIsComplete(p: Pack, data: Bytes)
    requires p.chunk > 0
    ensures var q := SetData(p, Some(data));
            Valid(q) && Joined(Portions(q)) == data && NonEmpty(Portions(q)) == CeilDiv(|data|, p.chunk) &&
            q.body == (if |data| < p.chunk then data else []) &&
            |Portions(q)| == (if |data| < p.chunk then 1 else 1 + CeilDiv(|data|, p.chunk)) &&
            (|data| > 0 ==> (NonEmpty(Portions(q)) - 1) * p.chunk < |data| <= NonEmpty(Portions(q)) * p.chunk) &&
            forall i :: 0 <= i < |Portions(q)| ==> |Portions(q)[i]| <= p.chunk
  {
    var q := SetData(p, Some(data));
    PortionsCover(q);
    CeilDivRoundsUp(|data|, p.chunk);
  }

  /** The pack after k more portions. */
  function Nexts(p: Pack, k: nat): Pack
    requires Valid(p) && p.chunk == 0
    ensures Valid(Nexts(p, k)) && Nexts(p, k).chunk == 0
    decreases k
  {
    if k == 0 || !CanGoOn(p) then p else Nexts(Next(p), k - 1)
  }

  /** With chunk size 0 the output of a buffer ends exactly when the buffer is empty. */
  lemma {:induction false} ZeroChunkEndsIff(p: Pack, data: Bytes, k: nat)
    requires p.chunk == 0
    ensures Valid(SetData(p, Some(data)))
    ensures !CanGoOn(Nexts(SetData(p, Some(data)), k)) <==> data == []
  {
    if data != [] {
      ZeroChunkStuck(SetData(p, Some(data)), k);
    }
  }

  lemma {:induction false} ZeroChunkStuck(p: Pack, k: nat)
    requires Valid(p) && CanGoOn(p) && p.chunk == 0
    ensures CanGoOn(Nexts(p, k)) && Nexts(p, k).offset == p.offset
    decreases k
  {
    if k > 0 {
      ZeroChunkStuck(Next(p), k - 1);
    }
  }
}
