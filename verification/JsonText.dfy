/**
  Which values print as text that the parser accepts. Only what is really sent counts: a base or
  field that a later namesake hides does not.
*/
module JsonText {
  import opened Basics
  import opened JsonCodec
  import opened JsonParts

  /** Strings are UTF-8, and structs, pairs, tuples and containers are nested at most d deep. */
  ghost predicate Readable(t: Type, v: Value, d: nat)
    requires WellTyped(t, v)
    decreases t
  {
    match t
    case TString => ValidUtf8(v.s)
    case TStruct(_, _) => d > 0 && forall i :: 0 <= i < Size(t) && Own(t, i) ==> Readable(SlotAt(t, i).t, PartAt(v, i), d - 1)
    case TOptional(elem) => v.VSome? ==> Readable(elem, v.v, d)
    case TTuple(elems) => d > 0 && forall i :: 0 <= i < |elems| ==> Readable(elems[i], v.elems[i], d - 1)
    case TPair(first, second) => d > 0 && Readable(first, v.first, d - 1) && Readable(second, v.second, d - 1)
    case TArray(elem, _) => d > 0 && forall i :: 0 <= i < |v.elems| ==> Readable(elem, v.elems[i], d - 1)
    case TList(elem) => d > 0 && forall i :: 0 <= i < |v.elems| ==> Readable(elem, v.elems[i], d - 1)
    case TSet(elem, _) => d > 0 && forall i :: 0 <= i < |v.elems| ==> Readable(elem, v.elems[i], d - 1)
    case _ => true
  }

  // ---------------------------------------------------------------- members

  predicate UniqueKeys(members: seq<Member>) {
    forall i, j :: 0 <= i < j < |members| ==> members[i].key != members[j].key
  }

  /** Assignment overwrites the member with the key, or appends one. */
  lemma {:induction false} AssignShape(members: seq<Member>, key: string, value: Json)
    ensures var r := Assign(members, key, value);
            if exists i :: 0 <= i < |members| && members[i].key == key
            then |r| == |members| && forall i :: 0 <= i < |r| ==> r[i].key == members[i].key
            else r == members + [Member(key, value)]
  {
    if members != [] && members[0].key != key {
      AssignShape(members[1..], key, value);
      assert members == [members[0]] + members[1..];
    }
  }

  lemma {:induction false} SlotsUnique(slots: seq<Slot>, vs: seq<Value>, n: nat, root: seq<Member>)
    requires n <= |slots| && SlotsTyped(slots, vs) && EncodeSlots(slots, vs, n, root).Some? && UniqueKeys(root)
    ensures UniqueKeys(EncodeSlots(slots, vs, n, root).value)
    decreases n
  {
    if n > 0 {
      SlotsUnique(slots, vs, n - 1, root);
      AssignUnique(EncodeSlots(slots, vs, n - 1, root).value, slots[n - 1].name, Encode(slots[n - 1].t, vs[n - 1]).value);
    }
  }

  lemma AssignUnique(members: seq<Member>, key: string, value: Json)
    requires UniqueKeys(members)
    ensures UniqueKeys(Assign(members, key, value))
  {
    AssignShape(members, key, value);
  }

  lemma {:induction false} LookupUnique(members: seq<Member>, j: nat)
    requires j < |members| && UniqueKeys(members)
    ensures Lookup(members, members[j].key) == Some(members[j].value)
  {
    if j > 0 {
      assert members[0].key != members[j].key;
      LookupUnique(members[1..], j - 1);
    }
  }

  lemma {:induction false} LookupHas(members: seq<Member>, key: string)
    ensures Lookup(members, key).Some? ==> Member(key, Lookup(members, key).value) in members
  {
    if members != [] && members[0].key != key {
      LookupHas(members[1..], key);
    }
  }

  /** Each member of an encoded struct is sent by a slot that nothing hides. */
  lemma MemberIsOwn(t: Type, v: Value, j: nat) returns (k: nat)
    requires t.TStruct? && WellTyped(t, v) && Members(t, v).Some? && j < |Members(t, v).value|
    ensures k < Size(t) && Own(t, k) && PartEncodes(t, v, k)
    ensures Members(t, v).value[j] == Member(SlotAt(t, k).name, Encode(SlotAt(t, k).t, PartAt(v, k)).value)
  {
    var full := Members(t, v).value;
    var name := full[j].key;
    SlotsUnique(t.bases, v.bases, |t.bases|, []);
    SlotsUnique(t.fields, v.fields, |t.fields|, EncodeSlots(t.bases, v.bases, |t.bases|, []).value);
    LookupUnique(full, j);
    var i := Named(t, v, name);
    StructMembers(t, v, i);
    HomeIsOwn(t, i);
    k := Home(t, i);
  }

  lemma Named(t: Type, v: Value, name: string) returns (i: nat)
    requires t.TStruct? && WellTyped(t, v) && Members(t, v).Some? && Lookup(Members(t, v).value, name).Some?
    ensures i < Size(t) && SlotAt(t, i).name == name
  {
    StructLookup(t, v, name);
    LastSlotBound(t.fields, name, |t.fields|);
    LastSlotBound(t.bases, name, |t.bases|);
    var f := LastSlot(t.fields, name, |t.fields|);
    i := if f.Some? then |t.bases| + f.value else LastSlot(t.bases, name, |t.bases|).value;
  }

  /** Each slot that nothing hides is a member. */
  lemma OwnIsMember(t: Type, v: Value, k: nat)
    requires t.TStruct? && WellTyped(t, v) && Members(t, v).Some? && k < Size(t) && Own(t, k)
    ensures PartEncodes(t, v, k)
    ensures Member(SlotAt(t, k).name, Encode(SlotAt(t, k).t, PartAt(v, k)).value) in Members(t, v).value
  {
    StructMembers(t, v, k);
    LookupHas(Members(t, v).value, SlotAt(t, k).name);
  }

  ghost predicate PartParses(t: Type, v: Value, k: nat, d: nat)
    requires t.TStruct? && k < Size(t)
  {
    PartEncodes(t, v, k) && Parsable(Encode(SlotAt(t, k).t, PartAt(v, k)).value, d)
  }

  lemma StructParses(t: Type, v: Value, d: nat)
    requires t.TStruct? && WellFormed(t) && WellTyped(t, v) && Members(t, v).Some? && d > 0
    ensures Parsable(JObject(Members(t, v).value), d) <==> forall k :: 0 <= k < Size(t) && Own(t, k) ==> PartParses(t, v, k, d - 1)
  {
    var full := Members(t, v).value;
    if forall k :: 0 <= k < Size(t) && Own(t, k) ==> PartParses(t, v, k, d - 1) {
      forall j | 0 <= j < |full| ensures ValidUtf8(full[j].key) && Parsable(full[j].value, d - 1) {
        var k := MemberIsOwn(t, v, j);
        PartFormed(t, k);
        assert PartParses(t, v, k, d - 1);
      }
    }
    if Parsable(JObject(full), d) {
      forall k | 0 <= k < Size(t) && Own(t, k) ensures PartParses(t, v, k, d - 1) {
        OwnIsMember(t, v, k);
        var j :| 0 <= j < |full| && full[j] == Member(SlotAt(t, k).name, Encode(SlotAt(t, k).t, PartAt(v, k)).value);
      }
    }
  }

  // ---------------------------------------------------------------- all types

  lemma PairParses(t: Type, v: Value, d: nat)
    requires t.TPair? && WellTyped(t, v) && Encode(t, v).Some?
    ensures Parsable(Encode(t, v).value, d) <==>
            d > 0 && Parsable(Encode(t.first, v.first).value, d - 1) && Parsable(Encode(t.second, v.second).value, d - 1)
  {
    var a, b := Encode(t.first, v.first).value, Encode(t.second, v.second).value;
    assert "id"[0] != "val"[0];
    assert Assign([Member("id", a)], "val", b)[0] == Member("id", a);
    var members := [Member("id", a), Member("val", b)];
    assert Assign(Assign([], "id", a), "val", b) == members;
    assert Encode(t, v) == Some(JObject(members));
    PlainKeys();
    if d > 0 && Parsable(a, d - 1) && Parsable(b, d - 1) {
      forall i | 0 <= i < |members| ensures ValidUtf8(members[i].key) && Parsable(members[i].value, d - 1) {
        assert i == 0 || i == 1;
      }
    }
    if Parsable(JObject(members), d) {
      assert Parsable(members[0].value, d - 1) && Parsable(members[1].value, d - 1);
    }
  }

  lemma PlainKeys()
    ensures ValidUtf8("id") && ValidUtf8("val")
  {
    assert "id"[1..] == "d" && "d"[1..] == "" && "val"[1..] == "al" && "al"[1..] == "l" && "l"[1..] == "";
    assert ValidUtf8("d") && ValidUtf8("l");
    assert ValidUtf8("al");
  }

  /** The parser accepts the printed value exactly when its strings are text and it is not nested too deep. */
  lemma {:induction false} ReadableIff(t: Type, v: Value, d: nat)
    requires WellFormed(t) && WellTyped(t, v) && Encode(t, v).Some?
    ensures Parsable(Encode(t, v).value, d) <==> Readable(t, v, d)
    decreases t, 1
  {
    match t
    case TEnum(items) => EnumName(items, |items|, v.n);
    case TStruct(_, _) =>
      assert Encode(t, v) == Some(JObject(Members(t, v).value));
      if d > 0 {
        PartsReadable(t, v, d);
      }
    case TOptional(elem) =>
      if v.VSome? {
        ReadableIff(elem, v.v, d);
      }
    case TTuple(elems) =>
      ArrayParses(EncodeTuple(elems, v.elems, |elems|).value, d);
      if d > 0 {
        TupleReadable(elems, v.elems, EncodeTuple(elems, v.elems, |elems|).value, d - 1);
      }
    case TPair(first, second) =>
      PairParses(t, v, d);
      if d > 0 {
        ReadableIff(first, v.first, d - 1);
        ReadableIff(second, v.second, d - 1);
      }
    case TArray(elem, _) => ElementsReadable(elem, v.elems, d);
    case TList(elem) => ElementsReadable(elem, v.elems, d);
    case TSet(elem, _) => ElementsReadable(elem, v.elems, d);
    case _ =>
  }

  lemma {:induction false} TupleReadable(ts: seq<Type>, vs: seq<Value>, items: seq<Json>, d: nat)
    requires |ts| == |vs| && (forall i :: 0 <= i < |ts| ==> WellFormed(ts[i]) && WellTyped(ts[i], vs[i]))
    requires EncodeTuple(ts, vs, |ts|) == Some(items)
    ensures AllParse(items, d) <==> forall i :: 0 <= i < |ts| ==> Readable(ts[i], vs[i], d)
    decreases ts, 0
  {
    TupleItems(ts, vs, |ts|);
    forall i | 0 <= i < |ts| ensures Parsable(items[i], d) <==> Readable(ts[i], vs[i], d) {
      ReadableIff(ts[i], vs[i], d);
    }
  }

  lemma {:induction false} PartsReadable(t: Type, v: Value, d: nat)
    requires t.TStruct? && WellFormed(t) && WellTyped(t, v) && Members(t, v).Some? && d > 0
    ensures Parsable(JObject(Members(t, v).value), d) <==> Readable(t, v, d)
    decreases t, 0
  {
    StructParses(t, v, d);
    PartsEncode(t, v);
    forall k: nat | k < Size(t)
      ensures WellTyped(SlotAt(t, k).t, PartAt(v, k)) && (PartParses(t, v, k, d - 1) <==> Readable(SlotAt(t, k).t, PartAt(v, k), d - 1))
    {
      PartFormed(t, k);
      assert PartEncodes(t, v, k);
      ReadableIff(SlotAt(t, k).t, PartAt(v, k), d - 1);
    }
  }

  /** The elements of a container, whatever its kind. */
  ghost predicate AllReadable(elem: Type, vs: seq<Value>, d: nat)
    requires AllTyped(elem, vs)
  {
    forall i :: 0 <= i < |vs| ==> Readable(elem, vs[i], d)
  }

  predicate AllParse(items: seq<Json>, d: nat) {
    forall i :: 0 <= i < |items| ==> Parsable(items[i], d)
  }

  lemma ArrayParses(items: seq<Json>, d: nat)
    ensures Parsable(JArray(items), d) <==> d > 0 && AllParse(items, d - 1)
  {
  }

  lemma {:induction false} ElementsReadable(elem: Type, vs: seq<Value>, d: nat)
    requires WellFormed(elem) && AllTyped(elem, vs) && EncodeList(elem, vs).Some?
    ensures Parsable(JArray(EncodeList(elem, vs).value), d) <==> d > 0 && AllReadable(elem, vs, d - 1)
    decreases elem, 3
  {
    ArrayParses(EncodeList(elem, vs).value, d);
    if d > 0 {
      ItemsReadable(elem, vs, EncodeList(elem, vs).value, d - 1);
    }
  }

  lemma {:induction false} ItemsReadable(elem: Type, vs: seq<Value>, items: seq<Json>, d: nat)
    requires WellFormed(elem) && AllTyped(elem, vs) && EncodeList(elem, vs) == Some(items)
    ensures AllParse(items, d) <==> AllReadable(elem, vs, d)
    decreases elem, 2
  {
    ListItems(elem, vs);
    forall i | 0 <= i < |vs| ensures Parsable(items[i], d) <==> Readable(elem, vs[i], d) {
      ReadableIff(elem, vs[i], d);
    }
  }
}
