/**
  What encoding, printing, parsing and decoding do to the parts of a value: leaves, members of
  objects, items of arrays.
*/
module JsonParts {
  import opened Basics
  import opened JsonCodec

  /** An empty optional, or an optional that holds one: both print as null. */
  predicate IsNull(t: Type, v: Value) {
    t.TOptional? && (v.VNone? || (v.VSome? && IsNull(t.elem, v.v)))
  }

  /** The value that a value comes back as, if the parser accepts the text. */
  function Through(t: Type, v: Value, cur: Value): Outcome<Value>
    requires WellTyped(t, v)
  {
    var j := Encode(t, v);
    if j.None? then Threw else Decode(t, Reparsed(j.value), cur)
  }

  // ---------------------------------------------------------------- leaves

  lemma {:induction false} TextKept(s: string)
    ensures CString(s) == s <==> '\0' !in s
    decreases |s|
  {
    if s != "" && s[0] != '\0' {
      TextKept(s[1..]);
      assert s == [s[0]] + s[1..];
    }
  }

  lemma WrapKept(signed: bool, bits: nat, n: int)
    requires Width(bits) && Fits(signed, bits, n)
    ensures Wrap(signed, bits, n) == n
  {
    var size := Pow2(bits);
    if n < 0 {
      assert n == -1 * size + (n + size);
      assert n % size == n + size;
    }
  }

  lemma IntKept(signed: bool, bits: nat, n: int)
    requires Width(bits) && Fits(signed, bits, n)
    ensures ToInt(signed, bits, Reparsed(if signed then JInt64(n) else JUint64(n))) == Ok(n)
  {
    WrapKept(signed, bits, n);
    if bits < 32 {
      WrapKept(true, 32, n);
    }
  }

  lemma EnumNamePlain(items: seq<Item>, value: int)
    requires forall i :: 0 <= i < |items| ==> PlainName(items[i].name)
    requires EnumToString(items, |items|, value).Some?
    ensures CString(EnumToString(items, |items|, value).value) == EnumToString(items, |items|, value).value
  {
    EnumName(items, |items|, value);
    TextKept(EnumToString(items, |items|, value).value);
  }

  lemma {:induction false} NullIff(t: Type, v: Value)
    requires WellTyped(t, v)
    ensures Encode(t, v) == Some(JNull) <==> IsNull(t, v)
    decreases t
  {
    if t.TOptional? && v.VSome? {
      NullIff(t.elem, v.v);
    }
  }

  // ---------------------------------------------------------------- objects

  lemma {:induction false} LookupAssign(members: seq<Member>, key: string, value: Json, other: string)
    ensures Lookup(Assign(members, key, value), other) == if other == key then Some(value) else Lookup(members, other)
  {
    if members != [] && members[0].key != key {
      LookupAssign(members[1..], key, value, other);
    }
  }

  function ReparsedMembers(members: seq<Member>): seq<Member> {
    seq(|members|, i requires 0 <= i < |members| => Member(members[i].key, Reparsed(members[i].value)))
  }

  lemma {:induction false} LookupReparsed(members: seq<Member>, key: string)
    ensures Lookup(ReparsedMembers(members), key) ==
            (match Lookup(members, key) case None => None case Some(j) => Some(Reparsed(j)))
  {
    if members != [] {
      assert ReparsedMembers(members)[1..] == ReparsedMembers(members[1..]);
      LookupReparsed(members[1..], key);
    }
  }

  ghost predicate SlotsTyped(slots: seq<Slot>, vs: seq<Value>) {
    |slots| == |vs| && forall i :: 0 <= i < |slots| ==> WellTyped(slots[i].t, vs[i])
  }

  /** The bases of a struct type, then its fields. */
  function Size(t: Type): nat
    requires t.TStruct?
  {
    |t.bases| + |t.fields|
  }

  function SlotAt(t: Type, i: nat): (r: Slot)
    requires t.TStruct? && i < Size(t)
    ensures t decreases to r.t
  {
    if i < |t.bases| then t.bases[i] else t.fields[i - |t.bases|]
  }

  function PartAt(v: Value, i: nat): Value {
    if !v.VStruct? then VNone else if i < |v.bases| then v.bases[i] else At(v.fields, i - |v.bases|)
  }

  /** The last of the first n slots that has the given name. */
  function LastSlot(slots: seq<Slot>, name: string, n: nat): Option<nat>
    requires n <= |slots|
  {
    if n == 0 then None else if slots[n - 1].name == name then Some(n - 1) else LastSlot(slots, name, n - 1)
  }

  function LastAt(t: Type, name: string, n: nat): (r: Option<nat>)
    requires t.TStruct? && n <= Size(t)
    ensures r.Some? ==> r.value < n && SlotAt(t, r.value).name == name
    ensures r.None? ==> forall i :: 0 <= i < n ==> SlotAt(t, i).name != name
    ensures r.Some? ==> forall i :: r.value < i < n ==> SlotAt(t, i).name != name
  {
    if n == 0 then None else if SlotAt(t, n - 1).name == name then Some(n - 1) else LastAt(t, name, n - 1)
  }

  /** The slot whose value is sent under the name of slot i: the last one with that name. */
  function Home(t: Type, i: nat): (k: nat)
    requires t.TStruct? && i < Size(t)
    ensures i <= k < Size(t) && SlotAt(t, k).name == SlotAt(t, i).name
    ensures forall m :: k < m < Size(t) ==> SlotAt(t, m).name != SlotAt(t, i).name
  {
    LastAt(t, SlotAt(t, i).name, Size(t)).value
  }

  /** A slot that no later one hides. */
  predicate Own(t: Type, i: nat)
    requires t.TStruct? && i < Size(t)
  {
    Home(t, i) == i
  }

  lemma HomeIsOwn(t: Type, i: nat)
    requires t.TStruct? && i < Size(t)
    ensures Own(t, Home(t, i))
  {
  }

  /** The slots of a struct without namesakes are their own. */
  lemma DistinctAreOwn(t: Type)
    requires t.TStruct? && forall i, j :: 0 <= i < j < Size(t) ==> SlotAt(t, i).name != SlotAt(t, j).name
    ensures forall i :: 0 <= i < Size(t) ==> Own(t, i)
  {
  }

  /** What slot k is printed and parsed as. */
  ghost function Sent(t: Type, v: Value, k: nat): Json
    requires t.TStruct? && k < Size(t)
  {
    if WellTyped(SlotAt(t, k).t, PartAt(v, k)) && Encode(SlotAt(t, k).t, PartAt(v, k)).Some?
    then Reparsed(Encode(SlotAt(t, k).t, PartAt(v, k)).value)
    else JNull
  }

  /** What slot i is decoded from. */
  ghost function ItemFor(t: Type, v: Value, i: nat): Json
    requires t.TStruct? && i < Size(t)
  {
    Sent(t, v, Home(t, i))
  }

  lemma {:induction false} LastAtSplit(t: Type, name: string, n: nat)
    requires t.TStruct? && n <= Size(t)
    ensures n <= |t.bases| ==> LastAt(t, name, n) == LastSlot(t.bases, name, n)
    ensures n > |t.bases| ==>
              LastAt(t, name, n) ==
              match LastSlot(t.fields, name, n - |t.bases|)
              case Some(k) => Some(|t.bases| + k)
              case None => LastSlot(t.bases, name, |t.bases|)
    decreases n
  {
    if n > 0 {
      LastAtSplit(t, name, n - 1);
    }
  }

  lemma {:induction false} SlotsEncode(slots: seq<Slot>, vs: seq<Value>, n: nat, root: seq<Member>)
    requires n <= |slots| && SlotsTyped(slots, vs)
    ensures EncodeSlots(slots, vs, n, root).Some? <==> forall i :: 0 <= i < n ==> Encode(slots[i].t, vs[i]).Some?
    decreases n
  {
    if n > 0 {
      SlotsEncode(slots, vs, n - 1, root);
    }
  }

  /** Each name leads to the last slot that has it; other names are left alone. */
  lemma {:induction false} SlotFound(slots: seq<Slot>, vs: seq<Value>, n: nat, root: seq<Member>, key: string)
    requires n <= |slots| && SlotsTyped(slots, vs) && EncodeSlots(slots, vs, n, root).Some?
    ensures LastSlot(slots, key, n).None? ==> Lookup(EncodeSlots(slots, vs, n, root).value, key) == Lookup(root, key)
    ensures LastSlot(slots, key, n).Some? ==>
              var k := LastSlot(slots, key, n).value;
              k < n && Encode(slots[k].t, vs[k]).Some? && Lookup(EncodeSlots(slots, vs, n, root).value, key) == Encode(slots[k].t, vs[k])
    decreases n
  {
    if n > 0 {
      SlotFound(slots, vs, n - 1, root, key);
      LookupAssign(EncodeSlots(slots, vs, n - 1, root).value, slots[n - 1].name, Encode(slots[n - 1].t, vs[n - 1]).value, key);
    }
  }

  /** The members of an encoded struct. */
  function Members(t: Type, v: Value): Option<seq<Member>>
    requires t.TStruct? && WellTyped(t, v)
  {
    var root := EncodeSlots(t.bases, v.bases, |t.bases|, []);
    if root.None? then None else EncodeSlots(t.fields, v.fields, |t.fields|, root.value)
  }

  lemma BaseAt(t: Type, v: Value, i: nat)
    requires t.TStruct? && WellTyped(t, v) && i < |t.bases|
    ensures SlotAt(t, i) == t.bases[i] && PartAt(v, i) == v.bases[i] && WellTyped(t.bases[i].t, v.bases[i])
  {
  }

  lemma FieldAt(t: Type, v: Value, i: nat)
    requires t.TStruct? && WellTyped(t, v) && i < |t.fields|
    ensures var k := |t.bases| + i;
            SlotAt(t, k) == t.fields[i] && PartAt(v, k) == v.fields[i] && WellTyped(t.fields[i].t, v.fields[i])
  {
  }

  lemma PartTyped(t: Type, v: Value, i: nat)
    requires t.TStruct? && WellTyped(t, v) && i < Size(t)
    ensures WellTyped(SlotAt(t, i).t, PartAt(v, i))
  {
  }

  lemma PartFormed(t: Type, i: nat)
    requires t.TStruct? && WellFormed(t) && i < Size(t)
    ensures WellFormed(SlotAt(t, i).t) && PlainName(SlotAt(t, i).name)
  {
  }

  /** A struct is its parts. */
  lemma SameParts(t: Type, v: Value, w: Value)
    requires t.TStruct? && WellTyped(t, v) && w.VStruct? && |w.bases| == |t.bases| && |w.fields| == |t.fields|
    requires forall i :: 0 <= i < Size(t) ==> PartAt(w, i) == PartAt(v, i)
    ensures w == v
  {
    forall i: nat | i < |t.bases| ensures w.bases[i] == v.bases[i] {
      assert PartAt(w, i) == PartAt(v, i);
    }
    forall i: nat | i < |t.fields| ensures w.fields[i] == v.fields[i] {
      assert PartAt(w, |t.bases| + i) == PartAt(v, |t.bases| + i);
    }
    assert w.bases == v.bases && w.fields == v.fields;
  }

  ghost predicate PartEncodes(t: Type, v: Value, i: nat)
    requires t.TStruct? && i < Size(t)
  {
    WellTyped(SlotAt(t, i).t, PartAt(v, i)) && Encode(SlotAt(t, i).t, PartAt(v, i)).Some?
  }

  lemma MembersEncode(t: Type, v: Value)
    requires t.TStruct? && WellTyped(t, v)
    ensures Members(t, v).Some? <==>
            (forall i :: 0 <= i < |t.bases| ==> Encode(t.bases[i].t, v.bases[i]).Some?) &&
            (forall i :: 0 <= i < |t.fields| ==> Encode(t.fields[i].t, v.fields[i]).Some?)
  {
    SlotsEncode(t.bases, v.bases, |t.bases|, []);
    var root := EncodeSlots(t.bases, v.bases, |t.bases|, []);
    if root.Some? {
      SlotsEncode(t.fields, v.fields, |t.fields|, root.value);
    }
  }

  lemma PartsFromSlots(t: Type, v: Value, k: nat)
    requires t.TStruct? && WellTyped(t, v) && k < Size(t)
    ensures PartEncodes(t, v, k) <==>
            if k < |t.bases| then Encode(t.bases[k].t, v.bases[k]).Some?
            else Encode(t.fields[k - |t.bases|].t, v.fields[k - |t.bases|]).Some?
  {
    if k < |t.bases| {
      BaseAt(t, v, k);
    } else {
      FieldAt(t, v, k - |t.bases|);
    }
  }

  /** A struct is encoded when all its bases and fields are. */
  lemma PartsEncode(t: Type, v: Value)
    requires t.TStruct? && WellTyped(t, v)
    ensures Members(t, v).Some? <==> forall i :: 0 <= i < Size(t) ==> PartEncodes(t, v, i)
  {
    MembersEncode(t, v);
    if Members(t, v).Some? {
      forall k: nat | k < Size(t) ensures PartEncodes(t, v, k) {
        PartsFromSlots(t, v, k);
      }
    } else {
      NotAllEncode(t, v);
    }
  }

  lemma NotAllEncode(t: Type, v: Value)
    requires t.TStruct? && WellTyped(t, v) && Members(t, v).None?
    ensures exists k :: 0 <= k < Size(t) && !PartEncodes(t, v, k)
  {
    MembersEncode(t, v);
    if i :| 0 <= i < |t.bases| && Encode(t.bases[i].t, v.bases[i]).None? {
      BaseAt(t, v, i);
      assert !PartEncodes(t, v, i);
    } else {
      var i :| 0 <= i < |t.fields| && Encode(t.fields[i].t, v.fields[i]).None?;
      FieldAt(t, v, i);
      assert !PartEncodes(t, v, |t.bases| + i);
    }
  }

  /** What is found under a name in an encoded struct, in terms of its two lists of slots. */
  lemma StructLookup(t: Type, v: Value, name: string)
    requires t.TStruct? && WellTyped(t, v) && Members(t, v).Some?
    ensures var f, b := LastSlot(t.fields, name, |t.fields|), LastSlot(t.bases, name, |t.bases|);
            Lookup(Members(t, v).value, name) ==
            if f.Some? && f.value < |t.fields| then Encode(t.fields[f.value].t, v.fields[f.value])
            else if b.Some? && b.value < |t.bases| then Encode(t.bases[b.value].t, v.bases[b.value])
            else None
    ensures LastSlot(t.fields, name, |t.fields|).Some? ==> LastSlot(t.fields, name, |t.fields|).value < |t.fields|
    ensures LastSlot(t.bases, name, |t.bases|).Some? ==> LastSlot(t.bases, name, |t.bases|).value < |t.bases|
  {
    var root := EncodeSlots(t.bases, v.bases, |t.bases|, []).value;
    SlotFound(t.bases, v.bases, |t.bases|, [], name);
    SlotFound(t.fields, v.fields, |t.fields|, root, name);
  }

  /** Under each name an encoded struct has the value of the last base or field with that name. */
  lemma StructMembers(t: Type, v: Value, i: nat)
    requires t.TStruct? && WellTyped(t, v) && Members(t, v).Some? && i < Size(t)
    ensures PartEncodes(t, v, Home(t, i))
    ensures Lookup(Members(t, v).value, SlotAt(t, i).name) == Encode(SlotAt(t, Home(t, i)).t, PartAt(v, Home(t, i)))
  {
    PartsEncode(t, v);
    assert PartEncodes(t, v, Home(t, i));
    if Home(t, i) < |t.bases| {
      MemberOfBase(t, v, i);
    } else {
      MemberOfField(t, v, i);
    }
  }

  lemma MemberOfBase(t: Type, v: Value, i: nat)
    requires t.TStruct? && WellTyped(t, v) && Members(t, v).Some? && i < Size(t) && Home(t, i) < |t.bases|
    ensures WellTyped(t.bases[Home(t, i)].t, PartAt(v, Home(t, i)))
    ensures Lookup(Members(t, v).value, SlotAt(t, i).name) == Encode(t.bases[Home(t, i)].t, PartAt(v, Home(t, i)))
  {
    HomeSplit(t, i);
    BaseAt(t, v, Home(t, i));
    StructLookup(t, v, SlotAt(t, i).name);
  }

  lemma MemberOfField(t: Type, v: Value, i: nat)
    requires t.TStruct? && WellTyped(t, v) && Members(t, v).Some? && i < Size(t) && Home(t, i) >= |t.bases|
    ensures WellTyped(t.fields[Home(t, i) - |t.bases|].t, PartAt(v, Home(t, i)))
    ensures Lookup(Members(t, v).value, SlotAt(t, i).name) == Encode(t.fields[Home(t, i) - |t.bases|].t, PartAt(v, Home(t, i)))
  {
    HomeSplit(t, i);
    FieldAt(t, v, Home(t, i) - |t.bases|);
    StructLookup(t, v, SlotAt(t, i).name);
  }

  /** So each base and field is decoded from that value. */
  lemma StructItems(t: Type, v: Value, i: nat)
    requires t.TStruct? && WellTyped(t, v) && Members(t, v).Some? && i < Size(t)
    ensures Lookup(ReparsedMembers(Members(t, v).value), SlotAt(t, i).name) == Some(ItemFor(t, v, i))
  {
    StructMembers(t, v, i);
    LookupReparsed(Members(t, v).value, SlotAt(t, i).name);
  }

  lemma HomeSplit(t: Type, i: nat)
    requires t.TStruct? && i < Size(t)
    ensures var k, name := Home(t, i), SlotAt(t, i).name;
            if k < |t.bases| then LastSlot(t.fields, name, |t.fields|).None? && LastSlot(t.bases, name, |t.bases|) == Some(k)
            else LastSlot(t.fields, name, |t.fields|) == Some(k - |t.bases|)
  {
    var k, name := Home(t, i), SlotAt(t, i).name;
    assert LastAt(t, name, Size(t)) == Some(k);
    LastAtSplit(t, name, Size(t));
    LastSlotBound(t.bases, name, |t.bases|);
  }

  lemma {:induction false} LastSlotBound(slots: seq<Slot>, name: string, n: nat)
    requires n <= |slots|
    ensures LastSlot(slots, name, n).Some? ==> LastSlot(slots, name, n).value < n && slots[LastSlot(slots, name, n).value].name == name
  {
    if n > 0 {
      LastSlotBound(slots, name, n - 1);
    }
  }

  lemma AppendedIff(before: Outcome<seq<Value>>, last: Outcome<Value>, vs: seq<Value>, v: Value)
    ensures Appended(before, last) == Ok(vs + [v]) <==> before == Ok(vs) && last == Ok(v)
  {
    if before.Ok? && last.Ok? && before.value + [last.value] == vs + [v] {
      var a, b := before.value + [last.value], vs + [v];
      assert |a| == |b|;
      assert before.value == a[..|before.value|] && vs == b[..|vs|];
      assert a[|before.value|] == last.value && b[|vs|] == v;
    }
  }

  /** Slots decode to given values exactly when each does. */
  lemma {:induction false} SlotsBack(slots: seq<Slot>, members: seq<Member>, items: seq<Json>, cur: seq<Value>, n: nat, strict: bool, vs: seq<Value>)
    requires n <= |slots| == |vs| == |cur| == |items|
    requires forall i :: 0 <= i < |slots| ==> Lookup(members, slots[i].name) == Some(items[i])
    ensures DecodeSlots(slots, members, cur, n, strict) == Ok(vs[..n]) <==>
            forall i :: 0 <= i < n ==> Decode(slots[i].t, items[i], cur[i]) == Ok(vs[i])
    decreases n
  {
    if n > 0 {
      SlotsBack(slots, members, items, cur, n - 1, strict, vs);
      TakeLast(vs, n);
      SlotsStep(slots, members, items[n - 1], cur, n, strict);
      AppendedIff(DecodeSlots(slots, members, cur, n - 1, strict), Decode(slots[n - 1].t, items[n - 1], cur[n - 1]), vs[..n - 1], vs[n - 1]);
    }
  }

  lemma SlotsStep(slots: seq<Slot>, members: seq<Member>, item: Json, cur: seq<Value>, n: nat, strict: bool)
    requires 0 < n <= |slots| == |cur| && Lookup(members, slots[n - 1].name) == Some(item)
    ensures DecodeSlots(slots, members, cur, n, strict) ==
            Appended(DecodeSlots(slots, members, cur, n - 1, strict), Decode(slots[n - 1].t, item, cur[n - 1]))
  {
  }

  // ---------------------------------------------------------------- arrays

  ghost predicate AllTyped(elem: Type, vs: seq<Value>) {
    forall i :: 0 <= i < |vs| ==> WellTyped(elem, vs[i])
  }

  function ReparsedItems(items: seq<Json>): seq<Json> {
    seq(|items|, i requires 0 <= i < |items| => Reparsed(items[i]))
  }

  /** The items of an encoded container. */
  lemma {:induction false} ListItems(elem: Type, vs: seq<Value>)
    requires AllTyped(elem, vs) && EncodeList(elem, vs).Some?
    ensures |EncodeList(elem, vs).value| == |vs|
    ensures forall i :: 0 <= i < |vs| ==> Encode(elem, vs[i]) == Some(EncodeList(elem, vs).value[i])
    decreases |vs|
  {
    if vs != [] {
      ListItems(elem, vs[..|vs| - 1]);
    }
  }

  lemma {:induction false} TupleItems(ts: seq<Type>, vs: seq<Value>, n: nat)
    requires n <= |ts| == |vs| && (forall i :: 0 <= i < |ts| ==> WellTyped(ts[i], vs[i])) && EncodeTuple(ts, vs, n).Some?
    ensures |EncodeTuple(ts, vs, n).value| == n
    ensures forall i :: 0 <= i < n ==> Encode(ts[i], vs[i]) == Some(EncodeTuple(ts, vs, n).value[i])
    decreases n
  {
    if n > 0 {
      TupleItems(ts, vs, n - 1);
    }
  }

  /** Each item decodes into a new object to the element given. */
  predicate Decodes(elem: Type, items: seq<Json>, vs: seq<Value>) {
    |items| == |vs| && forall i :: 0 <= i < |vs| ==> Decode(elem, items[i], Default(elem)) == Ok(vs[i])
  }

  lemma {:induction false} ListBack(elem: Type, items: seq<Json>, vs: seq<Value>)
    requires |items| == |vs|
    ensures DecodeList(elem, items) == Ok(vs) <==> Decodes(elem, items, vs)
    decreases |items|
  {
    if items != [] {
      var n := |items| - 1;
      var most, x := vs[..n], vs[n];
      assert vs == most + [x];
      ListStep(elem, items);
      DecodesStep(elem, items, most, x);
      ListBack(elem, items[..n], most);
      AppendedIff(DecodeList(elem, items[..n]), Decode(elem, items[n], Default(elem)), most, x);
    }
  }

  lemma ListStep(elem: Type, items: seq<Json>)
    requires items != []
    ensures var n := |items| - 1;
            DecodeList(elem, items) == Appended(DecodeList(elem, items[..n]), Decode(elem, items[n], Default(elem)))
  {
  }

  lemma DecodesStep(elem: Type, items: seq<Json>, most: seq<Value>, x: Value)
    requires |items| == |most| + 1
    ensures Decodes(elem, items, most + [x]) <==>
            Decodes(elem, items[..|most|], most) && Decode(elem, items[|most|], Default(elem)) == Ok(x)
  {
    var vs, n := most + [x], |most|;
    if Decodes(elem, items, vs) {
      assert Decode(elem, items[n], Default(elem)) == Ok(vs[n]);
      forall i | 0 <= i < n ensures Decode(elem, items[..n][i], Default(elem)) == Ok(most[i]) {
        assert Decode(elem, items[i], Default(elem)) == Ok(vs[i]);
      }
    }
    if Decodes(elem, items[..n], most) && Decode(elem, items[n], Default(elem)) == Ok(x) {
      DecodesMore(elem, items, most, x);
    }
  }

  lemma {:induction false} TupleBack(ts: seq<Type>, items: seq<Json>, cur: seq<Value>, n: nat, vs: seq<Value>)
    requires n <= |ts| == |items| == |cur| == |vs|
    ensures DecodeTuple(ts, items, cur, n) == Ok(vs[..n]) <==> forall i :: 0 <= i < n ==> Decode(ts[i], items[i], cur[i]) == Ok(vs[i])
    decreases n
  {
    if n > 0 {
      TupleBack(ts, items, cur, n - 1, vs);
      TakeLast(vs, n);
      TupleStep(ts, items, cur, n);
      AppendedIff(DecodeTuple(ts, items, cur, n - 1), Decode(ts[n - 1], items[n - 1], cur[n - 1]), vs[..n - 1], vs[n - 1]);
    }
  }

  lemma TupleStep(ts: seq<Type>, items: seq<Json>, cur: seq<Value>, n: nat)
    requires 0 < n <= |ts| == |items| == |cur|
    ensures DecodeTuple(ts, items, cur, n) == Appended(DecodeTuple(ts, items, cur, n - 1), Decode(ts[n - 1], items[n - 1], cur[n - 1]))
  {
  }

  /** A greater element goes to the end. */
  lemma {:induction false} InsertLast(less: (Value, Value) -> bool, vs: seq<Value>, v: Value)
    requires forall i :: 0 <= i < |vs| ==> less(vs[i], v)
    ensures InsertOrdered(less, vs, v) == vs + [v]
  {
    if vs != [] {
      InsertLast(less, vs[1..], v);
    }
  }

  lemma {:induction false} SetBack(elem: Type, less: (Value, Value) -> bool, items: seq<Json>, vs: seq<Value>)
    requires Sorted(less, vs) && Decodes(elem, items, vs)
    ensures DecodeSet(elem, less, items) == Ok(vs)
    decreases |items|
  {
    if items != [] {
      var n := |items| - 1;
      SetBack(elem, less, items[..n], vs[..n]);
      InsertLast(less, vs[..n], vs[n]);
      assert Decode(elem, items[n], Default(elem)) == Ok(vs[n]);
      assert InsertOrdered(less, vs[..n], vs[n]) == vs;
    }
  }

  lemma {:induction false} SetBackFrom(elem: Type, less: (Value, Value) -> bool, items: seq<Json>, r: seq<Value>) returns (ds: seq<Value>)
    requires DecodeSet(elem, less, items) == Ok(r)
    ensures Decodes(elem, items, ds) && multiset(r) <= multiset(ds)
    decreases |items|
  {
    ds := [];
    if items != [] {
      var n := |items| - 1;
      var before, last := DecodeSet(elem, less, items[..n]), Decode(elem, items[n], Default(elem));
      InsertedFrom(less, before, last, r);
      var most := SetBackFrom(elem, less, items[..n], before.value);
      ds := most + [last.value];
      DecodesMore(elem, items, most, last.value);
    }
  }

  lemma InsertedFrom(less: (Value, Value) -> bool, before: Outcome<seq<Value>>, last: Outcome<Value>, r: seq<Value>)
    requires Inserted(less, before, last) == Ok(r)
    ensures before.Ok? && last.Ok? && multiset(r) <= multiset(before.value) + multiset{last.value}
  {
    assert before.Ok? && last.Ok?;
    InsertAdds(less, before.value, last.value);
  }

  lemma DecodesMore(elem: Type, items: seq<Json>, most: seq<Value>, v: Value)
    requires items != [] && Decodes(elem, items[..|items| - 1], most) && Decode(elem, items[|items| - 1], Default(elem)) == Ok(v)
    ensures Decodes(elem, items, most + [v])
  {
    var n := |items| - 1;
    forall i | 0 <= i <= n ensures Decode(elem, items[i], Default(elem)) == Ok((most + [v])[i]) {
      assert i < n ==> items[i] == items[..n][i];
    }
  }

  lemma {:induction false} InsertAdds(less: (Value, Value) -> bool, vs: seq<Value>, v: Value)
    ensures multiset(InsertOrdered(less, vs, v)) <= multiset(vs) + multiset{v}
  {
    if vs != [] {
      var x, rest := vs[0], vs[1..];
      assert vs == [x] + rest;
      InsertAdds(less, rest, v);
      PutFront(x, rest);
      PutFront(x, InsertOrdered(less, rest, v));
      PutFront(v, vs);
    }
  }

  lemma PutFront(x: Value, vs: seq<Value>)
    ensures multiset([x] + vs) == multiset{x} + multiset(vs)
  {
  }

  // ---------------------------------------------------------------- whole values

  lemma {:induction false} SlotsLength(slots: seq<Slot>, members: seq<Member>, cur: seq<Value>, n: nat, strict: bool)
    requires n <= |slots|
    ensures var r := DecodeSlots(slots, members, cur, n, strict); r.Ok? ==> |r.value| == n
    decreases n
  {
    if n > 0 {
      SlotsLength(slots, members, cur, n - 1, strict);
    }
  }

  lemma {:induction false} TupleLength(ts: seq<Type>, items: seq<Json>, cur: seq<Value>, n: nat)
    requires n <= |ts|
    ensures var r := DecodeTuple(ts, items, cur, n); r.Ok? ==> |r.value| == n
    decreases n
  {
    if n > 0 {
      TupleLength(ts, items, cur, n - 1);
    }
  }

  lemma {:induction false} ListLength(elem: Type, items: seq<Json>)
    ensures var r := DecodeList(elem, items); r.Ok? ==> |r.value| == |items|
    decreases |items|
  {
    if items != [] {
      ListLength(elem, items[..|items| - 1]);
    }
  }

  /** Each base and field is decoded, from what was sent under its name, as the value given. */
  ghost predicate SlotsReturn(t: Type, v: Value, cur: Value, w: Value)
    requires t.TStruct?
  {
    w.VStruct? && |w.bases| == |t.bases| && |w.fields| == |t.fields| &&
    forall i :: 0 <= i < Size(t) ==> SlotReturns(t, v, cur, w, i)
  }

  lemma SlotsThrough(slots: seq<Slot>, members: seq<Member>, items: seq<Json>, cur: seq<Value>, strict: bool, ws: seq<Value>)
    requires |slots| == |items| == |cur| && forall i :: 0 <= i < |slots| ==> Lookup(members, slots[i].name) == Some(items[i])
    ensures DecodeSlots(slots, members, cur, |slots|, strict) == Ok(ws) <==>
            PartReturns(slots, items, cur, ws)
  {
    SlotsLength(slots, members, cur, |slots|, strict);
    if |ws| == |slots| {
      SlotsBack(slots, members, items, cur, |slots|, strict, ws);
      assert ws[..|slots|] == ws;
    }
  }

  ghost function Items(t: Type, v: Value, from: nat, count: nat): seq<Json>
    requires t.TStruct? && from + count <= Size(t)
  {
    seq(count, i requires 0 <= i < count => ItemFor(t, v, from + i))
  }

  /** A struct comes back as given bases and fields exactly when each slot decodes so from its last namesake. */
  lemma StructThrough(t: Type, v: Value, cur: Value, w: Value)
    requires t.TStruct? && WellTyped(t, v) && WellTyped(t, cur) && Encode(t, v).Some?
    ensures forall i :: 0 <= i < Size(t) ==> PartEncodes(t, v, i)
    ensures Through(t, v, cur) == Ok(w) <==> SlotsReturn(t, v, cur, w)
  {
    PartsEncode(t, v);
    var members := ReparsedMembers(Members(t, v).value);
    forall i | 0 <= i < Size(t) ensures Lookup(members, SlotAt(t, i).name) == Some(ItemFor(t, v, i)) {
      StructItems(t, v, i);
    }
    StructDecodes(t, v, cur, w);
    if w.VStruct? {
      var n := |t.bases|;
      SlotsThrough(t.bases, members, Items(t, v, 0, n), cur.bases, true, w.bases);
      SlotsThrough(t.fields, members, Items(t, v, n, |t.fields|), cur.fields, false, w.fields);
      if Through(t, v, cur) == Ok(w) {
        JoinReturns(t, v, cur, w);
      }
      if SlotsReturn(t, v, cur, w) {
        SplitReturns(t, v, cur, w);
      }
    }
  }

  ghost predicate SlotReturns(t: Type, v: Value, cur: Value, w: Value, i: nat)
    requires t.TStruct? && i < Size(t)
  {
    Decode(SlotAt(t, i).t, ItemFor(t, v, i), PartAt(cur, i)) == Ok(PartAt(w, i))
  }

  /** The bases, or the fields, decode as given. */
  ghost predicate PartReturns(slots: seq<Slot>, items: seq<Json>, cur: seq<Value>, ws: seq<Value>)
    requires |slots| == |items| == |cur|
  {
    |ws| == |slots| && forall i :: 0 <= i < |slots| ==> Decode(slots[i].t, items[i], cur[i]) == Ok(ws[i])
  }

  lemma BaseReturns(t: Type, v: Value, cur: Value, w: Value, i: nat)
    requires t.TStruct? && cur.VStruct? && w.VStruct? && |w.bases| == |cur.bases| == |t.bases| && i < |t.bases|
    ensures SlotReturns(t, v, cur, w, i) <==> Decode(t.bases[i].t, Items(t, v, 0, |t.bases|)[i], cur.bases[i]) == Ok(w.bases[i])
  {
    assert Items(t, v, 0, |t.bases|)[i] == ItemFor(t, v, i);
  }

  lemma FieldReturns(t: Type, v: Value, cur: Value, w: Value, i: nat)
    requires t.TStruct? && cur.VStruct? && w.VStruct? && |w.bases| == |cur.bases| == |t.bases|
    requires |w.fields| == |cur.fields| == |t.fields| && i < |t.fields|
    ensures SlotReturns(t, v, cur, w, |t.bases| + i) <==>
            Decode(t.fields[i].t, Items(t, v, |t.bases|, |t.fields|)[i], cur.fields[i]) == Ok(w.fields[i])
  {
    var k := |t.bases| + i;
    assert Items(t, v, |t.bases|, |t.fields|)[i] == ItemFor(t, v, k);
    assert SlotAt(t, k) == t.fields[i] && PartAt(cur, k) == cur.fields[i] && PartAt(w, k) == w.fields[i];
  }

  lemma SplitReturns(t: Type, v: Value, cur: Value, w: Value)
    requires t.TStruct? && cur.VStruct? && |cur.bases| == |t.bases| && |cur.fields| == |t.fields| && SlotsReturn(t, v, cur, w)
    ensures PartReturns(t.bases, Items(t, v, 0, |t.bases|), cur.bases, w.bases)
    ensures PartReturns(t.fields, Items(t, v, |t.bases|, |t.fields|), cur.fields, w.fields)
  {
    forall i: nat | i < |t.bases| ensures Decode(t.bases[i].t, Items(t, v, 0, |t.bases|)[i], cur.bases[i]) == Ok(w.bases[i]) {
      BaseReturns(t, v, cur, w, i);
    }
    forall i: nat | i < |t.fields| ensures Decode(t.fields[i].t, Items(t, v, |t.bases|, |t.fields|)[i], cur.fields[i]) == Ok(w.fields[i]) {
      FieldReturns(t, v, cur, w, i);
    }
  }

  lemma JoinReturns(t: Type, v: Value, cur: Value, w: Value)
    requires t.TStruct? && cur.VStruct? && |cur.bases| == |t.bases| && |cur.fields| == |t.fields| && w.VStruct?
    requires PartReturns(t.bases, Items(t, v, 0, |t.bases|), cur.bases, w.bases)
    requires PartReturns(t.fields, Items(t, v, |t.bases|, |t.fields|), cur.fields, w.fields)
    ensures SlotsReturn(t, v, cur, w)
  {
    forall k: nat | k < Size(t) ensures SlotReturns(t, v, cur, w, k) {
      if k < |t.bases| {
        JoinBase(t, v, cur, w, k);
      } else {
        JoinField(t, v, cur, w, k - |t.bases|);
      }
    }
  }

  lemma JoinBase(t: Type, v: Value, cur: Value, w: Value, i: nat)
    requires t.TStruct? && cur.VStruct? && |cur.bases| == |t.bases| && w.VStruct? && i < |t.bases|
    requires PartReturns(t.bases, Items(t, v, 0, |t.bases|), cur.bases, w.bases)
    ensures SlotReturns(t, v, cur, w, i)
  {
    BaseReturns(t, v, cur, w, i);
  }

  lemma JoinField(t: Type, v: Value, cur: Value, w: Value, i: nat)
    requires t.TStruct? && cur.VStruct? && w.VStruct? && |cur.bases| == |t.bases| == |w.bases| && |cur.fields| == |t.fields| && i < |t.fields|
    requires PartReturns(t.fields, Items(t, v, |t.bases|, |t.fields|), cur.fields, w.fields)
    ensures SlotReturns(t, v, cur, w, |t.bases| + i)
  {
    FieldReturns(t, v, cur, w, i);
  }

  lemma StructDecodes(t: Type, v: Value, cur: Value, w: Value)
    requires t.TStruct? && WellTyped(t, v) && WellTyped(t, cur) && Members(t, v).Some?
    ensures var members := ReparsedMembers(Members(t, v).value);
            Through(t, v, cur) == Ok(w) <==>
            w.VStruct? && DecodeSlots(t.bases, members, cur.bases, |t.bases|, true) == Ok(w.bases) &&
            DecodeSlots(t.fields, members, cur.fields, |t.fields|, false) == Ok(w.fields)
  {
    var full := Members(t, v).value;
    var members := ReparsedMembers(full);
    assert Encode(t, v) == Some(JObject(full));
    assert Reparsed(JObject(full)) == JObject(members);
    assert Through(t, v, cur) == Both(DecodeSlots(t.bases, members, cur.bases, |t.bases|, true),
                                      DecodeSlots(t.fields, members, cur.fields, |t.fields|, false),
                                      (a: seq<Value>, b: seq<Value>) => VStruct(a, b));
  }

  /** A slot that nothing hides is decoded from its own value. */
  lemma OwnItem(t: Type, v: Value, i: nat, c: Value)
    requires t.TStruct? && i < Size(t) && Own(t, i) && PartEncodes(t, v, i)
    ensures Decode(SlotAt(t, i).t, ItemFor(t, v, i), c) == Through(SlotAt(t, i).t, PartAt(v, i), c)
  {
  }

  lemma PairMembers(a: Json, b: Json)
    ensures Lookup(ReparsedMembers(Assign(Assign([], "id", a), "val", b)), "id") == Some(Reparsed(a))
    ensures Lookup(ReparsedMembers(Assign(Assign([], "id", a), "val", b)), "val") == Some(Reparsed(b))
  {
    var one := Assign([], "id", a);
    var two := Assign(one, "val", b);
    assert "id"[0] != "val"[0];
    LookupAssign([], "id", a, "id");
    LookupAssign(one, "val", b, "id");
    LookupAssign(one, "val", b, "val");
    LookupReparsed(two, "id");
    LookupReparsed(two, "val");
  }

  lemma PairThrough(t: Type, v: Value, cur: Value, w: Value)
    requires t.TPair? && WellTyped(t, v) && WellTyped(t, cur) && Encode(t, v).Some?
    ensures Through(t, v, cur) == Ok(w) <==>
            w.VPair? && Through(t.first, v.first, cur.first) == Ok(w.first) && Through(t.second, v.second, cur.second) == Ok(w.second)
  {
    var a, b := Encode(t.first, v.first).value, Encode(t.second, v.second).value;
    var two := Assign(Assign([], "id", a), "val", b);
    PairMembers(a, b);
    assert Reparsed(JObject(two)) == JObject(ReparsedMembers(two));
    assert Through(t, v, cur) == Both(Through(t.first, v.first, cur.first), Through(t.second, v.second, cur.second),
                                      (x: Value, y: Value) => VPair(x, y));
  }

  /** Each part comes back as the value given. */
  ghost predicate PartsReturn(ts: seq<Type>, vs: seq<Value>, cur: seq<Value>, ws: seq<Value>)
    requires |ts| == |vs| == |cur| && forall i :: 0 <= i < |ts| ==> WellTyped(ts[i], vs[i])
  {
    |ws| == |ts| && forall i :: 0 <= i < |ts| ==> Through(ts[i], vs[i], cur[i]) == Ok(ws[i])
  }

  lemma PartThrough(ts: seq<Type>, vs: seq<Value>, i: nat, cur: Value)
    requires i < |ts| == |vs| && (forall j :: 0 <= j < |ts| ==> WellTyped(ts[j], vs[j])) && EncodeTuple(ts, vs, |ts|).Some?
    ensures |EncodeTuple(ts, vs, |ts|).value| == |ts| && Encode(ts[i], vs[i]).Some?
    ensures Through(ts[i], vs[i], cur) == Decode(ts[i], ReparsedItems(EncodeTuple(ts, vs, |ts|).value)[i], cur)
  {
    TupleItems(ts, vs, |ts|);
  }

  lemma PartsThrough(ts: seq<Type>, vs: seq<Value>, cur: seq<Value>, ws: seq<Value>)
    requires |ts| == |vs| == |cur| && (forall i :: 0 <= i < |ts| ==> WellTyped(ts[i], vs[i])) && EncodeTuple(ts, vs, |ts|).Some?
    ensures DecodeTuple(ts, ReparsedItems(EncodeTuple(ts, vs, |ts|).value), cur, |ts|) == Ok(ws) <==> PartsReturn(ts, vs, cur, ws)
  {
    var items := ReparsedItems(EncodeTuple(ts, vs, |ts|).value);
    TupleItems(ts, vs, |ts|);
    TupleLength(ts, items, cur, |ts|);
    if |ws| == |ts| {
      TupleBack(ts, items, cur, |ts|, ws);
      assert ws[..|ts|] == ws;
      forall i | 0 <= i < |ts| ensures Through(ts[i], vs[i], cur[i]) == Decode(ts[i], items[i], cur[i]) {
        PartThrough(ts, vs, i, cur[i]);
      }
    }
  }

  lemma TupleThrough(t: Type, v: Value, cur: Value, w: Value)
    requires t.TTuple? && WellTyped(t, v) && WellTyped(t, cur) && Encode(t, v).Some?
    ensures forall i :: 0 <= i < |t.elems| ==> Encode(t.elems[i], v.elems[i]).Some?
    ensures Through(t, v, cur) == Ok(w) <==>
            w.VTuple? && PartsReturn(t.elems, v.elems, cur.elems, w.elems)
  {
    forall i | 0 <= i < |t.elems| ensures Encode(t.elems[i], v.elems[i]).Some? {
      PartThrough(t.elems, v.elems, i, cur);
    }
    var items := EncodeTuple(t.elems, v.elems, |t.elems|).value;
    assert Reparsed(JArray(items)) == JArray(ReparsedItems(items));
    PartsThrough(t.elems, v.elems, cur.elems, if w.VTuple? then w.elems else []);
  }

  /** Each element comes back, in a new object, as the value given. */
  ghost predicate ElementsReturn(elem: Type, vs: seq<Value>, ws: seq<Value>)
    requires AllTyped(elem, vs)
  {
    |ws| == |vs| && forall i :: 0 <= i < |vs| ==> Through(elem, vs[i], Default(elem)) == Ok(ws[i])
  }

  lemma ElementsThrough(elem: Type, vs: seq<Value>, ws: seq<Value>)
    requires AllTyped(elem, vs) && EncodeList(elem, vs).Some?
    ensures |EncodeList(elem, vs).value| == |vs|
    ensures Decodes(elem, ReparsedItems(EncodeList(elem, vs).value), ws) <==> ElementsReturn(elem, vs, ws)
    ensures forall i :: 0 <= i < |vs| ==> Encode(elem, vs[i]).Some?
  {
    ListItems(elem, vs);
    var items := ReparsedItems(EncodeList(elem, vs).value);
    assert forall i :: 0 <= i < |vs| ==> Through(elem, vs[i], Default(elem)) == Decode(elem, items[i], Default(elem));
  }

  lemma ContainerDecodes(t: Type, v: Value, cur: Value, items: seq<Json>)
    requires t.TArray? || t.TList? || t.TSet?
    requires WellTyped(t, v) && Encode(t, v) == Some(JArray(items)) && |items| == |v.elems|
    ensures Through(t, v, cur) ==
            ListValue(if t.TSet? then DecodeSet(t.elem, t.less, ReparsedItems(items)) else DecodeList(t.elem, ReparsedItems(items)))
  {
    var back := ReparsedItems(items);
    assert Reparsed(JArray(items)) == JArray(back);
    assert back[..|items|] == back;
  }

  lemma ListThrough(t: Type, v: Value, cur: Value, w: Value)
    requires (t.TArray? || t.TList?) && WellTyped(t, v) && Encode(t, v).Some?
    ensures forall i :: 0 <= i < |v.elems| ==> Encode(t.elem, v.elems[i]).Some?
    ensures Through(t, v, cur) == Ok(w) <==> w.VList? && ElementsReturn(t.elem, v.elems, w.elems)
  {
    var items := EncodeList(t.elem, v.elems).value;
    ElementsThrough(t.elem, v.elems, if w.VList? then w.elems else []);
    ContainerDecodes(t, v, cur, items);
    ListLength(t.elem, ReparsedItems(items));
    if w.VList? && |w.elems| == |items| {
      ListBack(t.elem, ReparsedItems(items), w.elems);
    }
  }

  /** A set comes back as some of what its elements come back as. */
  lemma SetThrough(t: Type, v: Value, cur: Value, w: Value) returns (ds: seq<Value>)
    requires t.TSet? && WellTyped(t, v) && Through(t, v, cur) == Ok(w)
    ensures forall i :: 0 <= i < |v.elems| ==> Encode(t.elem, v.elems[i]).Some?
    ensures w.VList? && ElementsReturn(t.elem, v.elems, ds) && multiset(w.elems) <= multiset(ds)
    ensures ds == v.elems ==> w == v
  {
    var items := EncodeList(t.elem, v.elems).value;
    ElementsThrough(t.elem, v.elems, []);
    ContainerDecodes(t, v, cur, items);
    ds := SetBackFrom(t.elem, t.less, ReparsedItems(items), w.elems);
    ElementsThrough(t.elem, v.elems, ds);
    if ds == v.elems {
      SetBack(t.elem, t.less, ReparsedItems(items), v.elems);
    }
  }

  lemma SetReturns(t: Type, v: Value, cur: Value)
    requires t.TSet? && WellTyped(t, v) && Encode(t, v).Some? && ElementsReturn(t.elem, v.elems, v.elems)
    ensures Through(t, v, cur) == Ok(v)
  {
    var items := EncodeList(t.elem, v.elems).value;
    ElementsThrough(t.elem, v.elems, v.elems);
    ContainerDecodes(t, v, cur, items);
    SetBack(t.elem, t.less, ReparsedItems(items), v.elems);
  }
}
