/**
  What comes back when a value is encoded, printed, parsed and decoded into an object that already
  holds something.
*/
module JsonRoundTrip {
  import opened Basics
  import opened JsonCodec
  import opened JsonParts
  import opened JsonBurden
  import opened JsonText

  // ---------------------------------------------------------------- what survives

  /** `Serialize`, then `Deserialize` into an object that holds `cur`. */
  function Transmit(t: Type, v: Value, cur: Value): Outcome<Value>
    requires WellTyped(t, v)
  {
    var j := Encode(t, v);
    if j.None? || !Parsable(j.value, MAX_DEPTH) then Threw else Decode(t, Reparsed(j.value), cur)
  }

  /**
    A value is unharmed when no string in it holds a NUL, every null stands where the object that is
    decoded into already has that very null, and every base or field that a later namesake hides
    happens to be what decoding the namesake's value gives. Elements of containers and contents of
    optionals are decoded into new objects, the rest in place.
  */
  ghost predicate Survives(t: Type, v: Value, cur: Value)
    requires WellFormed(t) && WellTyped(t, v) && WellTyped(t, cur)
    decreases t
  {
    match t
    case TBool => true
    case TInt(_, _) => true
    case TString => '\0' !in v.s
    case TEnum(_) => true
    case TStruct(_, _) =>
      forall i :: 0 <= i < Size(t) ==>
        if Own(t, i) then Survives(SlotAt(t, i).t, PartAt(v, i), PartAt(cur, i)) else SlotReturns(t, v, cur, v, i)
    case TOptional(elem) => if IsNull(t, v) then v == cur else Survives(elem, v.v, Default(elem))
    case TTuple(elems) => forall i :: 0 <= i < |elems| ==> Survives(elems[i], v.elems[i], cur.elems[i])
    case TPair(first, second) => Survives(first, v.first, cur.first) && Survives(second, v.second, cur.second)
    case TArray(elem, _) => forall i :: 0 <= i < |v.elems| ==> Survives(elem, v.elems[i], Default(elem))
    case TList(elem) => forall i :: 0 <= i < |v.elems| ==> Survives(elem, v.elems[i], Default(elem))
    case TSet(elem, _) => forall i :: 0 <= i < |v.elems| ==> Survives(elem, v.elems[i], Default(elem))
  }

  // ---------------------------------------------------------------- round trip

  /** What is proved of one type: the value comes back exactly when it survives. */
  ghost predicate Exact(t: Type, v: Value, cur: Value)
    requires WellFormed(t) && WellTyped(t, v) && WellTyped(t, cur)
  {
    Through(t, v, cur) == Ok(v) <==> Survives(t, v, cur)
  }

  lemma {:induction false} StructExact(t: Type, v: Value, cur: Value)
    requires t.TStruct? && WellFormed(t) && WellTyped(t, v) && WellTyped(t, cur) && Encode(t, v).Some?
    ensures Exact(t, v, cur)
    decreases t, 0
  {
    StructThrough(t, v, cur, v);
    forall i: nat | i < Size(t)
      ensures WellFormed(SlotAt(t, i).t) && WellTyped(SlotAt(t, i).t, PartAt(v, i)) && WellTyped(SlotAt(t, i).t, PartAt(cur, i))
      ensures Own(t, i) ==> (SlotReturns(t, v, cur, v, i) <==> Survives(SlotAt(t, i).t, PartAt(v, i), PartAt(cur, i)))
    {
      PartFormed(t, i);
      PartTyped(t, v, i);
      PartTyped(t, cur, i);
      assert PartEncodes(t, v, i);
      if Own(t, i) {
        OwnItem(t, v, i, PartAt(cur, i));
        EveryTypeExact(SlotAt(t, i).t, PartAt(v, i), PartAt(cur, i));
      }
    }
  }

  lemma PairExact(t: Type, v: Value, cur: Value)
    requires t.TPair? && WellFormed(t) && WellTyped(t, v) && WellTyped(t, cur) && Encode(t, v).Some?
    requires Exact(t.first, v.first, cur.first) && Exact(t.second, v.second, cur.second)
    ensures Exact(t, v, cur)
  {
    PairThrough(t, v, cur, v);
  }

  lemma OptionalExact(t: Type, v: Value, cur: Value)
    requires t.TOptional? && WellFormed(t) && WellTyped(t, v) && WellTyped(t, cur) && Encode(t, v).Some?
    requires v.VSome? ==> Exact(t.elem, v.v, Default(t.elem))
    ensures Exact(t, v, cur)
  {
    NullIff(t, v);
  }

  lemma TupleExact(t: Type, v: Value, cur: Value)
    requires t.TTuple? && WellFormed(t) && WellTyped(t, v) && WellTyped(t, cur) && Encode(t, v).Some?
    requires forall i :: 0 <= i < |t.elems| ==> (Encode(t.elems[i], v.elems[i]).Some? ==> Exact(t.elems[i], v.elems[i], cur.elems[i]))
    ensures Exact(t, v, cur)
  {
    TupleThrough(t, v, cur, v);
  }

  /** A container comes back exactly when each element does; for sets this needs the weights of `JsonBurden`. */
  lemma ContainerReturns(t: Type, v: Value, cur: Value)
    requires t.TArray? || t.TList? || t.TSet?
    requires WellFormed(t) && WellTyped(t, v) && Encode(t, v).Some?
    ensures forall i :: 0 <= i < |v.elems| ==> Encode(t.elem, v.elems[i]).Some?
    ensures Through(t, v, cur) == Ok(v) <==> ElementsReturn(t.elem, v.elems, v.elems)
  {
    if t.TSet? {
      ElementsThrough(t.elem, v.elems, v.elems);
      if Through(t, v, cur) == Ok(v) {
        SetUnchanged(t, v, cur);
      }
      if ElementsReturn(t.elem, v.elems, v.elems) {
        SetReturns(t, v, cur);
      }
    } else {
      ListThrough(t, v, cur, v);
    }
  }

  lemma ContainerExact(t: Type, v: Value, cur: Value)
    requires t.TArray? || t.TList? || t.TSet?
    requires WellFormed(t) && WellTyped(t, v) && WellTyped(t, cur) && Encode(t, v).Some?
    requires forall i :: 0 <= i < |v.elems| ==> (Encode(t.elem, v.elems[i]).Some? ==> Exact(t.elem, v.elems[i], Default(t.elem)))
    ensures Exact(t, v, cur)
  {
    ContainerReturns(t, v, cur);
  }

  lemma LeafExact(t: Type, v: Value, cur: Value)
    requires t.TBool? || t.TInt? || t.TString? || t.TEnum?
    requires WellFormed(t) && WellTyped(t, v) && WellTyped(t, cur) && Encode(t, v).Some?
    ensures Exact(t, v, cur)
  {
    match t
    case TBool =>
    case TInt(signed, bits) => IntKept(signed, bits, v.n);
    case TString => TextKept(v.s);
    case TEnum(items) =>
      EnumNamePlain(items, v.n);
      EnumRoundTrip(items, v.n);
  }

  lemma {:induction false} EveryTypeExact(t: Type, v: Value, cur: Value)
    requires WellFormed(t) && WellTyped(t, v) && WellTyped(t, cur) && Encode(t, v).Some?
    ensures Exact(t, v, cur)
    decreases t, 1
  {
    match t
    case TStruct(_, _) => StructExact(t, v, cur);
    case TOptional(elem) =>
      if v.VSome? {
        EveryTypeExact(elem, v.v, Default(elem));
      }
      OptionalExact(t, v, cur);
    case TTuple(_) => TupleTrips(t, v, cur);
    case TPair(first, second) =>
      EveryTypeExact(first, v.first, cur.first);
      EveryTypeExact(second, v.second, cur.second);
      PairExact(t, v, cur);
    case TArray(_, _) => ElementTrips(t, v, cur);
    case TList(_) => ElementTrips(t, v, cur);
    case TSet(_, _) => ElementTrips(t, v, cur);
    case _ => LeafExact(t, v, cur);
  }

  lemma {:induction false} TupleTrips(t: Type, v: Value, cur: Value)
    requires t.TTuple? && WellFormed(t) && WellTyped(t, v) && WellTyped(t, cur) && Encode(t, v).Some?
    ensures Exact(t, v, cur)
    decreases t, 0
  {
    forall i | 0 <= i < |t.elems| && Encode(t.elems[i], v.elems[i]).Some?
      ensures Exact(t.elems[i], v.elems[i], cur.elems[i])
    {
      EveryTypeExact(t.elems[i], v.elems[i], cur.elems[i]);
    }
    TupleExact(t, v, cur);
  }

  lemma {:induction false} ElementTrips(t: Type, v: Value, cur: Value)
    requires t.TArray? || t.TList? || t.TSet?
    requires WellFormed(t) && WellTyped(t, v) && WellTyped(t, cur) && Encode(t, v).Some?
    ensures Exact(t, v, cur)
    decreases t, 0
  {
    forall i | 0 <= i < |v.elems| && Encode(t.elem, v.elems[i]).Some?
      ensures Exact(t.elem, v.elems[i], Default(t.elem))
    {
      EveryTypeExact(t.elem, v.elems[i], Default(t.elem));
    }
    ContainerExact(t, v, cur);
  }

  // ---------------------------------------------------------------- when encoding throws

  /** Every enum value inside has a name. */
  ghost predicate Named(t: Type, v: Value)
    requires WellTyped(t, v)
    decreases t
  {
    match t
    case TEnum(items) => exists i :: 0 <= i < |items| && items[i].value == v.n
    case TStruct(_, _) => forall i :: 0 <= i < Size(t) ==> Named(SlotAt(t, i).t, PartAt(v, i))
    case TOptional(elem) => v.VSome? ==> Named(elem, v.v)
    case TTuple(elems) => forall i :: 0 <= i < |elems| ==> Named(elems[i], v.elems[i])
    case TPair(first, second) => Named(first, v.first) && Named(second, v.second)
    case TArray(elem, _) => forall i :: 0 <= i < |v.elems| ==> Named(elem, v.elems[i])
    case TList(elem) => forall i :: 0 <= i < |v.elems| ==> Named(elem, v.elems[i])
    case TSet(elem, _) => forall i :: 0 <= i < |v.elems| ==> Named(elem, v.elems[i])
    case _ => true
  }

  lemma {:induction false} NameExists(items: seq<Item>, n: nat, value: int)
    requires n <= |items|
    ensures EnumToString(items, n, value).Some? <==> exists i :: 0 <= i < n && items[i].value == value
  {
    if n > 0 {
      NameExists(items, n - 1, value);
    }
  }

  lemma {:induction false} TupleEncodes(ts: seq<Type>, vs: seq<Value>, n: nat)
    requires n <= |ts| == |vs| && forall i :: 0 <= i < |ts| ==> WellTyped(ts[i], vs[i])
    ensures EncodeTuple(ts, vs, n).Some? <==> forall i :: 0 <= i < n ==> Encode(ts[i], vs[i]).Some?
    decreases n
  {
    if n > 0 {
      TupleEncodes(ts, vs, n - 1);
    }
  }

  lemma {:induction false} ListEncodes(elem: Type, vs: seq<Value>)
    requires AllTyped(elem, vs)
    ensures EncodeList(elem, vs).Some? <==> forall i :: 0 <= i < |vs| ==> Encode(elem, vs[i]).Some?
    decreases |vs|
  {
    if vs != [] {
      var n := |vs| - 1;
      ListEncodes(elem, vs[..n]);
      assert vs == vs[..n] + [vs[n]];
    }
  }

  /** Encoding throws exactly when some enum inside the value has no name. */
  lemma {:induction false} EncodesIffNamed(t: Type, v: Value)
    requires WellTyped(t, v)
    ensures Encode(t, v).Some? <==> Named(t, v)
    decreases t, 0
  {
    match t
    case TEnum(items) => NameExists(items, |items|, v.n);
    case TStruct(_, _) =>
      PartsEncode(t, v);
      forall i: nat | i < Size(t) ensures WellTyped(SlotAt(t, i).t, PartAt(v, i)) && (PartEncodes(t, v, i) <==> Named(SlotAt(t, i).t, PartAt(v, i))) {
        PartTyped(t, v, i);
        EncodesIffNamed(SlotAt(t, i).t, PartAt(v, i));
      }
      assert Encode(t, v).Some? <==> Members(t, v).Some?;
    case TOptional(elem) =>
      if v.VSome? {
        EncodesIffNamed(elem, v.v);
      }
    case TTuple(elems) =>
      forall i | 0 <= i < |elems| ensures Encode(elems[i], v.elems[i]).Some? <==> Named(elems[i], v.elems[i]) {
        EncodesIffNamed(elems[i], v.elems[i]);
      }
      TupleEncodes(elems, v.elems, |elems|);
    case TPair(first, second) =>
      EncodesIffNamed(first, v.first);
      EncodesIffNamed(second, v.second);
    case TArray(elem, _) => ElementsNamed(elem, v.elems);
    case TList(elem) => ElementsNamed(elem, v.elems);
    case TSet(elem, _) => ElementsNamed(elem, v.elems);
    case _ =>
  }

  lemma {:induction false} ElementsNamed(elem: Type, vs: seq<Value>)
    requires AllTyped(elem, vs)
    ensures EncodeList(elem, vs).Some? <==> forall i :: 0 <= i < |vs| ==> Named(elem, vs[i])
    decreases elem, 1
  {
    forall i | 0 <= i < |vs| ensures Encode(elem, vs[i]).Some? <==> Named(elem, vs[i]) {
      EncodesIffNamed(elem, vs[i]);
    }
    ListEncodes(elem, vs);
  }

  /**
    A value of any type, sent to an object that holds anything, comes back unchanged exactly when
    every enum in it has a name, its text is accepted by the parser, and it survives.
  */
  lemma RoundTripExact(t: Type, v: Value, cur: Value)
    requires WellFormed(t) && WellTyped(t, v) && WellTyped(t, cur)
    ensures Transmit(t, v, cur) == Ok(v) <==> Named(t, v) && Readable(t, v, MAX_DEPTH) && Survives(t, v, cur)
  {
    EncodesIffNamed(t, v);
    if Encode(t, v).Some? {
      ExactWhenEncoded(t, v, cur, MAX_DEPTH);
    }
  }

  lemma ExactWhenEncoded(t: Type, v: Value, cur: Value, d: nat)
    requires WellFormed(t) && WellTyped(t, v) && WellTyped(t, cur) && Encode(t, v).Some? && d == MAX_DEPTH
    ensures Transmit(t, v, cur) == Ok(v) <==> Readable(t, v, d) && Survives(t, v, cur)
  {
    TextBetween(t, v, cur, d);
    ReadableIff(t, v, d);
    EveryTypeExact(t, v, cur);
  }

  lemma TextBetween(t: Type, v: Value, cur: Value, d: nat)
    requires WellTyped(t, v) && Encode(t, v).Some? && d == MAX_DEPTH
    ensures Transmit(t, v, cur) == if Parsable(Encode(t, v).value, d) then Through(t, v, cur) else Threw
  {
  }

  // ---------------------------------------------------------------- ordinary types

  /** Every optional of the object that is decoded in place is empty. */
  ghost predicate Blank(t: Type, cur: Value)
    requires WellTyped(t, cur)
    decreases t
  {
    match t
    case TStruct(_, _) => forall i :: 0 <= i < Size(t) ==> Blank(SlotAt(t, i).t, PartAt(cur, i))
    case TOptional(_) => cur.VNone?
    case TTuple(elems) => forall i :: 0 <= i < |elems| ==> Blank(elems[i], cur.elems[i])
    case TPair(first, second) => Blank(first, cur.first) && Blank(second, cur.second)
    case _ => true
  }

  /** No base or field has the name of another, no optional holds an optional, and no constructor puts something in one. */
  ghost predicate Ordinary(t: Type)
    requires WellFormed(t)
  {
    match t
    case TStruct(_, _) =>
      (forall i, j :: 0 <= i < j < Size(t) ==> SlotAt(t, i).name != SlotAt(t, j).name) &&
      (forall i :: 0 <= i < Size(t) ==> Ordinary(SlotAt(t, i).t) && Blank(SlotAt(t, i).t, SlotAt(t, i).init))
    case TOptional(elem) => !elem.TOptional? && Ordinary(elem)
    case TTuple(elems) => forall i :: 0 <= i < |elems| ==> Ordinary(elems[i])
    case TPair(first, second) => Ordinary(first) && Ordinary(second)
    case TArray(elem, _) => Ordinary(elem)
    case TList(elem) => Ordinary(elem)
    case TSet(elem, _) => Ordinary(elem)
    case _ => true
  }

  ghost predicate NulFree(t: Type, v: Value)
    requires WellTyped(t, v)
    decreases t
  {
    match t
    case TString => '\0' !in v.s
    case TStruct(_, _) => forall i :: 0 <= i < Size(t) ==> NulFree(SlotAt(t, i).t, PartAt(v, i))
    case TOptional(elem) => v.VSome? ==> NulFree(elem, v.v)
    case TTuple(elems) => forall i :: 0 <= i < |elems| ==> NulFree(elems[i], v.elems[i])
    case TPair(first, second) => NulFree(first, v.first) && NulFree(second, v.second)
    case TArray(elem, _) => forall i :: 0 <= i < |v.elems| ==> NulFree(elem, v.elems[i])
    case TList(elem) => forall i :: 0 <= i < |v.elems| ==> NulFree(elem, v.elems[i])
    case TSet(elem, _) => forall i :: 0 <= i < |v.elems| ==> NulFree(elem, v.elems[i])
    case _ => true
  }

  lemma {:induction false} NewIsBlank(t: Type)
    requires WellFormed(t) && Ordinary(t)
    ensures Blank(t, Default(t))
  {
    match t
    case TStruct(bases, fields) =>
      forall i | 0 <= i < Size(t) ensures PartAt(Default(t), i) == SlotAt(t, i).init {
      }
    case TTuple(elems) =>
      forall i | 0 <= i < |elems| ensures Blank(elems[i], Default(elems[i])) {
        NewIsBlank(elems[i]);
      }
    case TPair(first, second) =>
      NewIsBlank(first);
      NewIsBlank(second);
    case _ =>
  }

  lemma {:induction false} OrdinarySurvives(t: Type, v: Value, cur: Value)
    requires WellFormed(t) && WellTyped(t, v) && WellTyped(t, cur) && Ordinary(t) && NulFree(t, v) && Blank(t, cur)
    ensures Survives(t, v, cur)
    decreases t, 1
  {
    match t
    case TStruct(_, _) => OrdinaryParts(t, v, cur);
    case TOptional(elem) =>
      if v.VSome? {
        assert !IsNull(elem, v.v);
        NewIsBlank(elem);
        OrdinarySurvives(elem, v.v, Default(elem));
      }
    case TTuple(elems) =>
      forall i | 0 <= i < |elems| ensures Survives(elems[i], v.elems[i], cur.elems[i]) {
        OrdinarySurvives(elems[i], v.elems[i], cur.elems[i]);
      }
    case TPair(first, second) =>
      OrdinarySurvives(first, v.first, cur.first);
      OrdinarySurvives(second, v.second, cur.second);
    case TArray(elem, _) => OrdinaryElements(elem, v.elems);
    case TList(elem) => OrdinaryElements(elem, v.elems);
    case TSet(elem, _) => OrdinaryElements(elem, v.elems);
    case _ =>
  }

  lemma {:induction false} OrdinaryParts(t: Type, v: Value, cur: Value)
    requires t.TStruct? && WellFormed(t) && WellTyped(t, v) && WellTyped(t, cur) && Ordinary(t) && NulFree(t, v) && Blank(t, cur)
    ensures Survives(t, v, cur)
    decreases t, 0
  {
    DistinctAreOwn(t);
    forall i: nat | i < Size(t)
      ensures WellFormed(SlotAt(t, i).t) && WellTyped(SlotAt(t, i).t, PartAt(v, i)) && WellTyped(SlotAt(t, i).t, PartAt(cur, i))
      ensures Survives(SlotAt(t, i).t, PartAt(v, i), PartAt(cur, i))
    {
      PartFormed(t, i);
      PartTyped(t, v, i);
      PartTyped(t, cur, i);
      OrdinarySurvives(SlotAt(t, i).t, PartAt(v, i), PartAt(cur, i));
    }
  }

  lemma {:induction false} OrdinaryElements(elem: Type, vs: seq<Value>)
    requires WellFormed(elem) && AllTyped(elem, vs) && Ordinary(elem) && forall i :: 0 <= i < |vs| ==> NulFree(elem, vs[i])
    ensures forall i :: 0 <= i < |vs| ==> Survives(elem, vs[i], Default(elem))
    decreases elem, 2
  {
    NewIsBlank(elem);
    forall i | 0 <= i < |vs| ensures Survives(elem, vs[i], Default(elem)) {
      OrdinarySurvives(elem, vs[i], Default(elem));
    }
  }

  /** `Deserialize` of `Serialize`: every readable, NUL-free value with named enums comes back. */
  lemma RoundTrip(t: Type, v: Value)
    requires WellFormed(t) && WellTyped(t, v) && Ordinary(t) && NulFree(t, v) && Named(t, v) && Readable(t, v, MAX_DEPTH)
    ensures Transmit(t, v, Default(t)) == Ok(v)
  {
    NewIsBlank(t);
    OrdinarySurvives(t, v, Default(t));
    RoundTripExact(t, v, Default(t));
  }

  // ---------------------------------------------------------------- what does not come back

  /** In any struct, an empty optional leaves what the target has in that field. */
  lemma NullKeepsTarget(t: Type, v: Value, cur: Value, w: Value, i: nat)
    requires t.TStruct? && WellTyped(t, v) && WellTyped(t, cur) && Transmit(t, v, cur) == Ok(w)
    requires i < Size(t) && Own(t, i) && SlotAt(t, i).t.TOptional? && PartAt(v, i) == VNone
    ensures w.VStruct? && PartAt(w, i) == PartAt(cur, i)
  {
    StructThrough(t, v, cur, w);
    assert PartEncodes(t, v, i) && SlotReturns(t, v, cur, w, i);
    OwnItem(t, v, i, PartAt(cur, i));
  }

  /**
    A field whose constructor fills an optional cannot be sent empty, in any struct: what comes back
    has the initial value there, and otherwise what the other bases and fields return.
  */
  lemma InitialiserSticks(t: Type, v: Value, w: Value, i: nat, d: nat)
    requires t.TStruct? && WellFormed(t) && WellTyped(t, v) && d == MAX_DEPTH
    requires i < Size(t) && Own(t, i) && SlotAt(t, i).t.TOptional? && PartAt(v, i) == VNone && SlotAt(t, i).init != VNone
    ensures Transmit(t, v, Default(t)) != Ok(v)
    ensures Transmit(t, v, Default(t)) == Ok(w) <==>
            Named(t, v) && Readable(t, v, d) && OthersReturn(t, v, Default(t), w, i) && PartAt(w, i) == SlotAt(t, i).init
  {
    NewPart(t, i);
    var blank := NewStruct(t);
    NullReturns(t, v, blank, w, i, d);
    NullLost(t, v, blank, i, d);
  }

  lemma NewPart(t: Type, i: nat)
    requires t.TStruct? && i < Size(t)
    ensures PartAt(Default(t), i) == SlotAt(t, i).init
  {
  }

  lemma NewStruct(t: Type) returns (v: Value)
    requires t.TStruct? && WellFormed(t)
    ensures v == Default(t) && WellTyped(t, v)
  {
    v := Default(t);
  }

  lemma NullLost(t: Type, v: Value, cur: Value, i: nat, d: nat)
    requires t.TStruct? && WellFormed(t) && WellTyped(t, v) && WellTyped(t, cur) && d == MAX_DEPTH
    requires i < Size(t) && Own(t, i) && SlotAt(t, i).t.TOptional? && PartAt(v, i) == VNone && PartAt(cur, i) != VNone
    ensures Transmit(t, v, cur) != Ok(v)
  {
    NullReturns(t, v, cur, v, i, d);
  }

  lemma NullReturns(t: Type, v: Value, cur: Value, w: Value, i: nat, d: nat)
    requires t.TStruct? && WellFormed(t) && WellTyped(t, v) && WellTyped(t, cur) && d == MAX_DEPTH
    requires i < Size(t) && Own(t, i) && SlotAt(t, i).t.TOptional? && PartAt(v, i) == VNone
    ensures Transmit(t, v, cur) == Ok(w) <==>
            Named(t, v) && Readable(t, v, d) && OthersReturn(t, v, cur, w, i) && PartAt(w, i) == PartAt(cur, i)
  {
    EncodesIffNamed(t, v);
    if Encode(t, v).Some? {
      NullField(t, v, cur, w, i, d);
    }
  }

  /** Every base and field but one is decoded as given. */
  ghost predicate OthersReturn(t: Type, v: Value, cur: Value, w: Value, i: nat)
    requires t.TStruct?
  {
    w.VStruct? && |w.bases| == |t.bases| && |w.fields| == |t.fields| &&
    forall j :: 0 <= j < Size(t) && j != i ==> SlotReturns(t, v, cur, w, j)
  }

  lemma NullField(t: Type, v: Value, cur: Value, w: Value, i: nat, d: nat)
    requires t.TStruct? && WellFormed(t) && WellTyped(t, v) && WellTyped(t, cur) && Encode(t, v).Some? && d == MAX_DEPTH
    requires i < Size(t) && Own(t, i) && SlotAt(t, i).t.TOptional? && PartAt(v, i) == VNone
    ensures Transmit(t, v, cur) == Ok(w) <==> Readable(t, v, d) && OthersReturn(t, v, cur, w, i) && PartAt(w, i) == PartAt(cur, i)
  {
    TextBetween(t, v, cur, d);
    ReadableIff(t, v, d);
    StructThrough(t, v, cur, w);
    assert PartEncodes(t, v, i);
    OwnItem(t, v, i, PartAt(cur, i));
    assert SlotReturns(t, v, cur, w, i) <==> PartAt(w, i) == PartAt(cur, i);
  }

  /** The converters of the narrow unsigned types take only the kind of number that parsing produces. */
  lemma NarrowNeedsText(bits: nat, n: int, cur: Value)
    requires (bits == 8 || bits == 16) && 0 <= n < Pow2(bits)
    ensures Decode(TInt(false, bits), Encode(TInt(false, bits), VInt(n)).value, cur) == Threw
    ensures Through(TInt(false, bits), VInt(n), cur) == Ok(VInt(n))
  {
    IntKept(false, bits, n);
  }

  /** Bytes that are not UTF-8 are printed as they are, and the text is then rejected. */
  lemma BadTextThrows(s: string, cur: Value)
    requires !ValidUtf8(s)
    ensures Transmit(TString, VString(s), cur) == Threw
  {
  }

  // ---------------------------------------------------------------- container loops

  /** The container overload of `ValueToJson`. */
  method ContainerToJson(elem: Type, vs: seq<Value>) returns (root: Option<seq<Json>>)
    requires AllTyped(elem, vs)
    ensures root == EncodeList(elem, vs)
    ensures root.Some? ==> |root.value| == |vs| && forall i :: 0 <= i < |vs| ==> Encode(elem, vs[i]) == Some(root.value[i])
  {
    var items: seq<Json> := [];
    for i := 0 to |vs|
      invariant EncodeList(elem, vs[..i]) == Some(items)
    {
      assert vs[..i + 1][..i] == vs[..i];
      var item := Encode(elem, vs[i]);
      if item.None? {
        ListEncodes(elem, vs);
        return None;
      }
      items := items + [item.value];
    }
    assert vs[..|vs|] == vs;
    ListItems(elem, vs);
    root := Some(items);
  }

  lemma {:induction false} DecodeStops(t: Type, items: seq<Json>, i: nat)
    requires (t.TList? || t.TSet?) && i < |items| && !Items(t, items[..i + 1]).Ok?
    ensures Items(t, items) == Items(t, items[..i + 1])
    decreases |items|
  {
    if i + 1 == |items| {
      assert items[..i + 1] == items;
    } else {
      var shorter := items[..|items| - 1];
      assert shorter[..i + 1] == items[..i + 1];
      DecodeStops(t, shorter, i);
    }
  }

  /** What the decoder makes of the items of a container. */
  function Items(t: Type, items: seq<Json>): Outcome<seq<Value>>
    requires t.TList? || t.TSet?
  {
    if t.TSet? then DecodeSet(t.elem, t.less, items) else DecodeList(t.elem, items)
  }

  /** The container overload of `JsonToValue`: clear, then insert item by item. */
  method JsonToContainer(t: Type, arr: seq<Json>) returns (r: Outcome<seq<Value>>)
    requires t.TList? || t.TSet?
    ensures r == Items(t, arr)
  {
    var result: seq<Value> := [];
    for i := 0 to |arr|
      invariant Items(t, arr[..i]) == Ok(result)
    {
      assert arr[..i + 1][..i] == arr[..i];
      var item := Decode(t.elem, arr[i], Default(t.elem));
      if !item.Ok? {
        DecodeStops(t, arr, i);
        return if item.Threw? then Threw else Undefined;
      }
      result := if t.TSet? then InsertOrdered(t.less, result, item.value) else result + [item.value];
    }
    assert arr[..|arr|] == arr;
    r := Ok(result);
  }
}
