/**
  Decoding of text that the encoder did not write: members that are missing or unknown, arrays that are too
  long or too short, elements out of order; and what numbers and enum values read as.
*/
module JsonForeign {
  import opened Basics
  import opened JsonCodec
  import opened JsonParts
  import opened JsonClash

  // ---------------------------------------------------------------- structs

  /** The member that a field reads: null if there is none. */
  function Found(members: seq<Member>, key: string): Json {
    var found := Lookup(members, key); if found.Some? then found.value else JNull
  }

  /** The bases must all be there; the fields read null for what is not. */
  ghost predicate SlotsRead(slots: seq<Slot>, members: seq<Member>, cur: seq<Value>, n: nat, strict: bool, vs: seq<Value>)
    requires n <= |slots| == |vs|
  {
    forall i :: 0 <= i < n ==>
      (strict ==> Lookup(members, slots[i].name).Some?) &&
      Decode(slots[i].t, Found(members, slots[i].name), At(cur, i)) == Ok(vs[i])
  }

  lemma {:induction false} SlotsReadIff(slots: seq<Slot>, members: seq<Member>, cur: seq<Value>, n: nat, strict: bool, vs: seq<Value>)
    requires n <= |slots| == |vs|
    ensures DecodeSlots(slots, members, cur, n, strict) == Ok(vs[..n]) <==> SlotsRead(slots, members, cur, n, strict, vs)
    decreases n
  {
    if n > 0 {
      SlotsReadIff(slots, members, cur, n - 1, strict, vs);
      TakeLast(vs, n);
      var found := Lookup(members, slots[n - 1].name);
      var last := if found.None? && strict then Threw else Decode(slots[n - 1].t, Found(members, slots[n - 1].name), At(cur, n - 1));
      assert DecodeSlots(slots, members, cur, n, strict) == Appended(DecodeSlots(slots, members, cur, n - 1, strict), last);
      AppendedIff(DecodeSlots(slots, members, cur, n - 1, strict), last, vs[..n - 1], vs[n - 1]);
    }
  }

  /**
    Any JSON decodes into a struct exactly when it is an object that has every base, and each base and
    field decodes, in place, from its member or, for a field, from null if it has none. Other
    members do not matter.
  */
  lemma StructReadsIff(t: Type, j: Json, cur: Value, w: Value)
    requires t.TStruct?
    ensures Decode(t, j, cur) == Ok(w) <==>
            j.JObject? && w.VStruct? && |w.bases| == |t.bases| && |w.fields| == |t.fields| &&
            SlotsRead(t.bases, j.members, BasesOf(cur), |t.bases|, true, w.bases) &&
            SlotsRead(t.fields, j.members, FieldsOf(cur), |t.fields|, false, w.fields)
    ensures !j.JObject? ==> Decode(t, j, cur) == Threw
  {
    if j.JObject? {
      var bases := DecodeSlots(t.bases, j.members, BasesOf(cur), |t.bases|, true);
      var fields := DecodeSlots(t.fields, j.members, FieldsOf(cur), |t.fields|, false);
      assert Decode(t, j, cur) == Both(bases, fields, (a: seq<Value>, b: seq<Value>) => VStruct(a, b));
      SlotsLength(t.bases, j.members, BasesOf(cur), |t.bases|, true);
      SlotsLength(t.fields, j.members, FieldsOf(cur), |t.fields|, false);
      if w.VStruct? && |w.bases| == |t.bases| && |w.fields| == |t.fields| {
        WholeSlots(t.bases, j.members, BasesOf(cur), true, w.bases);
        WholeSlots(t.fields, j.members, FieldsOf(cur), false, w.fields);
      }
    }
  }

  lemma WholeSlots(slots: seq<Slot>, members: seq<Member>, cur: seq<Value>, strict: bool, vs: seq<Value>)
    requires |slots| == |vs|
    ensures DecodeSlots(slots, members, cur, |slots|, strict) == Ok(vs) <==> SlotsRead(slots, members, cur, |slots|, strict, vs)
  {
    SlotsReadIff(slots, members, cur, |slots|, strict, vs);
    assert vs[..|slots|] == vs;
  }

  lemma {:induction false} SlotsSame(slots: seq<Slot>, a: seq<Member>, b: seq<Member>, cur: seq<Value>, n: nat, strict: bool)
    requires n <= |slots|
    requires forall i :: 0 <= i < n ==>
               if strict then Lookup(a, slots[i].name) == Lookup(b, slots[i].name) else Found(a, slots[i].name) == Found(b, slots[i].name)
    ensures DecodeSlots(slots, a, cur, n, strict) == DecodeSlots(slots, b, cur, n, strict)
    decreases n
  {
    if n > 0 {
      SlotsSame(slots, a, b, cur, n - 1, strict);
    }
  }

  lemma {:induction false} LookupLast(members: seq<Member>, m: Member, key: string)
    ensures Lookup(members + [m], key) ==
            if Lookup(members, key).Some? then Lookup(members, key) else if key == m.key then Some(m.value) else None
  {
    if members == [] {
      assert [] + [m] == [m];
      assert Lookup([m], key) == if key == m.key then Some(m.value) else Lookup([], key);
    } else {
      assert (members + [m])[1..] == members[1..] + [m];
      LookupLast(members[1..], m, key);
    }
  }

  /** A field that is missing decodes, with every error, exactly as one that is null. */
  lemma AbsentFieldIsNull(t: Type, members: seq<Member>, cur: Value, key: string)
    requires t.TStruct? && Lookup(members, key).None? && forall i :: 0 <= i < |t.bases| ==> t.bases[i].name != key
    ensures Decode(t, JObject(members), cur) == Decode(t, JObject(members + [Member(key, JNull)]), cur)
  {
    var more := members + [Member(key, JNull)];
    forall i | 0 <= i < |t.bases| ensures Lookup(members, t.bases[i].name) == Lookup(more, t.bases[i].name) {
      LookupLast(members, Member(key, JNull), t.bases[i].name);
    }
    forall i | 0 <= i < |t.fields| ensures Found(members, t.fields[i].name) == Found(more, t.fields[i].name) {
      LookupLast(members, Member(key, JNull), t.fields[i].name);
    }
    SlotsSame(t.bases, members, more, BasesOf(cur), |t.bases|, true);
    SlotsSame(t.fields, members, more, FieldsOf(cur), |t.fields|, false);
  }

  /** Null decodes into optionals only, and leaves them as they are. */
  lemma NullReadsIff(t: Type, cur: Value, w: Value)
    ensures Decode(t, JNull, cur) == Ok(w) <==> t.TOptional? && w == cur
  {
  }

  /** So a missing optional field keeps what the target has, any other missing field fails, and so does a missing base. */
  lemma MissingMember(t: Type, members: seq<Member>, cur: Value, w: Value)
    requires t.TStruct? && Decode(t, JObject(members), cur) == Ok(w)
    ensures w.VStruct? && |w.bases| == |t.bases| && |w.fields| == |t.fields|
    ensures forall i :: 0 <= i < |t.bases| ==> Lookup(members, t.bases[i].name).Some?
    ensures forall i :: 0 <= i < |t.fields| && Lookup(members, t.fields[i].name).None? ==>
                          t.fields[i].t.TOptional? && w.fields[i] == At(FieldsOf(cur), i)
  {
    StructReadsIff(t, JObject(members), cur, w);
    forall i | 0 <= i < |t.fields| && Lookup(members, t.fields[i].name).None?
      ensures t.fields[i].t.TOptional? && w.fields[i] == At(FieldsOf(cur), i)
    {
      assert Decode(t.fields[i].t, Found(members, t.fields[i].name), At(FieldsOf(cur), i)) == Ok(w.fields[i]);
      NullReadsIff(t.fields[i].t, At(FieldsOf(cur), i), w.fields[i]);
    }
  }

  // ---------------------------------------------------------------- arrays and pairs

  lemma {:induction false} TupleReads(ts: seq<Type>, items: seq<Json>, cur: seq<Value>, n: nat, vs: seq<Value>)
    requires n <= |ts| == |vs|
    ensures DecodeTuple(ts, items, cur, n) == Ok(vs[..n]) <==>
            n <= |items| && forall i :: 0 <= i < n ==> Decode(ts[i], items[i], At(cur, i)) == Ok(vs[i])
    decreases n
  {
    if n > 0 {
      TupleReads(ts, items, cur, n - 1, vs);
      TakeLast(vs, n);
      var last := if n - 1 < |items| then Decode(ts[n - 1], items[n - 1], At(cur, n - 1)) else Undefined;
      assert DecodeTuple(ts, items, cur, n) == Appended(DecodeTuple(ts, items, cur, n - 1), last);
      AppendedIff(DecodeTuple(ts, items, cur, n - 1), last, vs[..n - 1], vs[n - 1]);
    }
  }

  /** A tuple decodes from an array that is long enough, item by item and in place; further items do not matter. */
  lemma TupleReadsIff(ts: seq<Type>, j: Json, cur: Value, w: Value)
    ensures Decode(TTuple(ts), j, cur) == Ok(w) <==>
            j.JArray? && w.VTuple? && |w.elems| == |ts| <= |j.items| &&
            forall i :: 0 <= i < |ts| ==> Decode(ts[i], j.items[i], At(ElemsOf(cur), i)) == Ok(w.elems[i])
    ensures !j.JArray? ==> Decode(TTuple(ts), j, cur) == Threw
  {
    if j.JArray? {
      TupleLength(ts, j.items, ElemsOf(cur), |ts|);
      if w.VTuple? && |w.elems| == |ts| {
        TupleReads(ts, j.items, ElemsOf(cur), |ts|, w.elems);
        assert w.elems[..|ts|] == w.elems;
      }
    }
  }

  /** A fixed array takes the first items of an array that is long enough, a sequence all of them; each into a new element. */
  lemma ItemsReadIff(t: Type, j: Json, cur: Value, w: Value)
    requires t.TArray? || t.TList?
    ensures Decode(t, j, cur) == Ok(w) <==>
            j.JArray? && w.VList? && |w.elems| == (if t.TArray? then t.size else |j.items|) <= |j.items| &&
            forall i :: 0 <= i < |w.elems| ==> Decode(t.elem, j.items[i], Default(t.elem)) == Ok(w.elems[i])
    ensures Decode(t, j, cur).Undefined? <== t.TArray? && j.JArray? && |j.items| < t.size
    ensures !j.JArray? ==> Decode(t, j, cur) == Threw
  {
    if j.JArray? && (t.TList? || t.size <= |j.items|) {
      var items := if t.TArray? then j.items[..t.size] else j.items;
      ListLength(t.elem, items);
      assert Decode(t, j, cur) == ListValue(DecodeList(t.elem, items));
      if w.VList? && |w.elems| == |items| {
        ListBack(t.elem, items, w.elems);
        assert forall i :: 0 <= i < |items| ==> items[i] == j.items[i];
      }
    }
  }

  /** A pair decodes from an object with both members; without an object or a member the behaviour is undefined. */
  lemma PairReadsIff(t: Type, j: Json, cur: Value, w: Value)
    requires t.TPair? && cur.VPair?
    ensures Decode(t, j, cur) == Ok(w) <==>
            j.JObject? && w.VPair? && Lookup(j.members, "id").Some? && Lookup(j.members, "val").Some? &&
            Decode(t.first, Lookup(j.members, "id").value, cur.first) == Ok(w.first) &&
            Decode(t.second, Lookup(j.members, "val").value, cur.second) == Ok(w.second)
    ensures Decode(t, j, cur).Undefined? <== !j.JObject? || Lookup(j.members, "id").None? || Lookup(j.members, "val").None?
  {
  }

  /** Anything but null is decoded into the new content of an optional. */
  lemma OptionalReadsIff(t: Type, j: Json, cur: Value, w: Value)
    requires t.TOptional? && !j.JNull?
    ensures Decode(t, j, cur) == Ok(w) <==> w.VSome? && Decode(t.elem, j, Default(t.elem)) == Ok(w.v)
  {
  }

  /** Null, arrays and objects are no flags, numbers, strings or enums. */
  lemma ScalarRejects(t: Type, j: Json, cur: Value)
    requires Scalar(t) && (j.JNull? || j.JArray? || j.JObject?)
    ensures Decode(t, j, cur) == Threw
  {
  }

  // ---------------------------------------------------------------- ordered containers

  /** What C++ asks of a comparison: irreflexive, transitive, and incomparable elements form classes. */
  ghost predicate WeakOrder(less: (Value, Value) -> bool) {
    (forall a :: !less(a, a)) && (forall a, b, c :: less(a, b) && less(b, c) ==> less(a, c)) &&
    (forall a, b, c :: less(a, c) ==> less(a, b) || less(b, c))
  }

  predicate Equivalent(less: (Value, Value) -> bool, a: Value, b: Value) {
    !less(a, b) && !less(b, a)
  }

  ghost predicate HasEquivalent(less: (Value, Value) -> bool, vs: seq<Value>, v: Value) {
    exists i :: 0 <= i < |vs| && Equivalent(less, vs[i], v)
  }

  /** What insertion into an ordered container has to give. */
  ghost predicate Inserted(less: (Value, Value) -> bool, vs: seq<Value>, v: Value, r: seq<Value>) {
    Sorted(less, r) &&
    if HasEquivalent(less, vs, v) then r == vs else multiset(r) == multiset(vs) + multiset{v}
  }

  /** Insertion keeps the order, and adds the element unless an equivalent one is there, which then stays. */
  lemma {:induction false} InsertOrders(less: (Value, Value) -> bool, vs: seq<Value>, v: Value)
    requires WeakOrder(less) && Sorted(less, vs)
    ensures Inserted(less, vs, v, InsertOrdered(less, vs, v))
  {
    if vs != [] {
      if less(vs[0], v) {
        var x, rest := vs[0], vs[1..];
        assert vs == [x] + rest;
        InsertOrders(less, rest, v);
        InsertMembers(less, rest, v);
        InsertBehind(less, x, rest, v, InsertOrdered(less, rest, v));
      } else if less(v, vs[0]) {
        InsertFront(less, vs, v);
      } else {
        assert Equivalent(less, vs[0], v);
      }
    }
  }

  lemma InsertBehind(less: (Value, Value) -> bool, x: Value, rest: seq<Value>, v: Value, r: seq<Value>)
    requires WeakOrder(less) && Sorted(less, [x] + rest) && less(x, v) && Inserted(less, rest, v, r)
    requires Drawn(r, rest, v)
    ensures Inserted(less, [x] + rest, v, [x] + r)
  {
    var vs := [x] + rest;
    forall i | 0 <= i < |r| ensures less(x, r[i]) {
      if r[i] in rest {
        var k :| 0 <= k < |rest| && rest[k] == r[i];
        assert less(vs[0], vs[k + 1]);
      }
    }
    FrontSorted(less, x, r);
    PutFront(x, rest);
    PutFront(x, r);
    EquivalentBehind(less, x, rest, v);
  }

  lemma EquivalentBehind(less: (Value, Value) -> bool, x: Value, rest: seq<Value>, v: Value)
    requires !Equivalent(less, x, v)
    ensures HasEquivalent(less, [x] + rest, v) <==> HasEquivalent(less, rest, v)
  {
    var vs := [x] + rest;
    assert forall i :: 0 <= i < |rest| ==> vs[i + 1] == rest[i];
    assert forall i :: 0 < i < |vs| ==> vs[i] == rest[i - 1];
  }

  lemma InsertFront(less: (Value, Value) -> bool, vs: seq<Value>, v: Value)
    requires WeakOrder(less) && Sorted(less, vs) && vs != [] && less(v, vs[0])
    ensures Inserted(less, vs, v, [v] + vs)
  {
    forall i | 0 <= i < |vs| ensures less(v, vs[i]) {
      assert i == 0 || less(vs[0], vs[i]);
    }
    FrontSorted(less, v, vs);
    PutFront(v, vs);
  }

  predicate Drawn(r: seq<Value>, vs: seq<Value>, v: Value) {
    forall i :: 0 <= i < |r| ==> r[i] in vs || r[i] == v
  }

  lemma InsertMembers(less: (Value, Value) -> bool, vs: seq<Value>, v: Value)
    ensures Drawn(InsertOrdered(less, vs, v), vs, v)
  {
    InsertAdds(less, vs, v);
    var r := InsertOrdered(less, vs, v);
    forall i | 0 <= i < |r| ensures r[i] in vs || r[i] == v {
      assert r[i] in multiset(r);
    }
  }

  lemma FrontSorted(less: (Value, Value) -> bool, x: Value, vs: seq<Value>)
    requires Sorted(less, vs) && forall i :: 0 <= i < |vs| ==> less(x, vs[i])
    ensures Sorted(less, [x] + vs)
  {
    var all := [x] + vs;
    forall i, j | 0 <= i < j < |all| ensures less(all[i], all[j]) {
      assert all[j] == vs[j - 1] && (i > 0 ==> all[i] == vs[i - 1]);
    }
  }

  /** The elements of vs, sorted, the first one of each class of equivalent ones. */
  ghost predicate SortedSet(less: (Value, Value) -> bool, vs: seq<Value>, r: seq<Value>) {
    Sorted(less, r) && (forall i :: 0 <= i < |vs| ==> HasEquivalent(less, r, vs[i])) &&
    forall k :: 0 <= k < |r| ==> FirstOfClass(less, vs, r[k])
  }

  ghost predicate FirstOfClass(less: (Value, Value) -> bool, vs: seq<Value>, x: Value) {
    exists j :: 0 <= j < |vs| && vs[j] == x && forall i :: 0 <= i < j ==> !Equivalent(less, vs[i], x)
  }

  lemma SortedSetNext(less: (Value, Value) -> bool, vs: seq<Value>, r: seq<Value>, v: Value)
    requires WeakOrder(less) && SortedSet(less, vs, r)
    ensures SortedSet(less, vs + [v], InsertOrdered(less, r, v))
  {
    var all, next := vs + [v], InsertOrdered(less, r, v);
    InsertOrders(less, r, v);
    InsertMembers(less, r, v);
    forall i | 0 <= i < |all| ensures HasEquivalent(less, next, all[i]) {
      if i < |vs| {
        assert HasEquivalent(less, r, vs[i]);
      }
      ClassServed(less, r, v, next, all[i]);
    }
    forall k | 0 <= k < |next| ensures FirstOfClass(less, all, next[k]) {
      ClassKept(less, vs, r, v, next[k]);
    }
  }

  lemma ClassServed(less: (Value, Value) -> bool, r: seq<Value>, v: Value, next: seq<Value>, x: Value)
    requires WeakOrder(less) && Inserted(less, r, v, next) && (HasEquivalent(less, r, x) || x == v)
    ensures HasEquivalent(less, next, x)
  {
    if HasEquivalent(less, r, x) {
      var k :| 0 <= k < |r| && Equivalent(less, r[k], x);
      assert r[k] in multiset(r) && r[k] in multiset(next);
      EquivalentIn(less, next, r[k], x);
    } else {
      assert v in multiset(next);
      EquivalentIn(less, next, v, v);
    }
  }

  lemma EquivalentIn(less: (Value, Value) -> bool, r: seq<Value>, y: Value, x: Value)
    requires y in r && Equivalent(less, y, x)
    ensures HasEquivalent(less, r, x)
  {
    var k :| 0 <= k < |r| && r[k] == y;
  }

  lemma OtherClass(less: (Value, Value) -> bool, r: seq<Value>, x: Value, v: Value)
    requires WeakOrder(less) && HasEquivalent(less, r, x) && !HasEquivalent(less, r, v)
    ensures !Equivalent(less, x, v)
  {
    var k :| 0 <= k < |r| && Equivalent(less, r[k], x);
    assert less(r[k], v) || less(v, r[k]);
  }

  lemma FirstStays(less: (Value, Value) -> bool, vs: seq<Value>, v: Value, x: Value)
    requires FirstOfClass(less, vs, x)
    ensures FirstOfClass(less, vs + [v], x)
  {
    var j :| 0 <= j < |vs| && vs[j] == x && forall i :: 0 <= i < j ==> !Equivalent(less, vs[i], x);
    var all := vs + [v];
    assert all[j] == x && forall i :: 0 <= i < j ==> all[i] == vs[i];
  }

  lemma FirstIsLast(less: (Value, Value) -> bool, vs: seq<Value>, v: Value)
    requires forall i :: 0 <= i < |vs| ==> !Equivalent(less, vs[i], v)
    ensures FirstOfClass(less, vs + [v], v)
  {
    var all := vs + [v];
    assert all[|vs|] == v && forall i :: 0 <= i < |vs| ==> all[i] == vs[i];
  }

  lemma ClassKept(less: (Value, Value) -> bool, vs: seq<Value>, r: seq<Value>, v: Value, x: Value)
    requires WeakOrder(less) && SortedSet(less, vs, r)
    requires x in r || (x == v && !HasEquivalent(less, r, v))
    ensures FirstOfClass(less, vs + [v], x)
  {
    if x in r {
      FirstStays(less, vs, v, x);
    } else {
      forall i | 0 <= i < |vs| ensures !Equivalent(less, vs[i], v) {
        OtherClass(less, r, vs[i], v);
      }
      FirstIsLast(less, vs, v);
    }
  }

  /**
    An ordered container decodes from what a sequence decodes from, with the same errors, into the sorted
    elements, of equivalent ones the first.
  */
  lemma {:induction false} SetReads(elem: Type, less: (Value, Value) -> bool, items: seq<Json>)
    requires WeakOrder(less)
    ensures match DecodeList(elem, items)
            case Ok(vs) => DecodeSet(elem, less, items).Ok? && SortedSet(less, vs, DecodeSet(elem, less, items).value)
            case Threw => DecodeSet(elem, less, items).Threw?
            case Undefined => DecodeSet(elem, less, items).Undefined?
    decreases |items|
  {
    if items != [] {
      var n := |items| - 1;
      SetReads(elem, less, items[..n]);
      ListStep(elem, items);
      var before, last := DecodeList(elem, items[..n]), Decode(elem, items[n], Default(elem));
      if before.Ok? && last.Ok? {
        SortedSetNext(less, before.value, DecodeSet(elem, less, items[..n]).value, last.value);
      }
    }
  }

  // ---------------------------------------------------------------- nesting

  /** Arrays one inside the other, d in all. */
  function Nest(d: nat): Json {
    if d == 0 then JNull else JArray([Nest(d - 1)])
  }

  lemma {:induction false} NestParses(d: nat, limit: nat)
    ensures Parsable(Nest(d), limit) <==> d <= limit
    decreases d
  {
    if d > 0 && limit > 0 {
      NestParses(d - 1, limit - 1);
      assert Nest(d).items[0] == Nest(d - 1);
    }
  }

  /** The parser reads 32 levels of arrays, and no more. */
  lemma NestingLimit(d: nat)
    ensures Parsable(Nest(d), MAX_DEPTH) <==> d <= 32
  {
    NestParses(d, MAX_DEPTH);
  }

  // ---------------------------------------------------------------- text of numbers and enums

  predicate IsDigit(c: char) {
    '0' <= c <= '9'
  }

  /** The number that a string of decimal digits stands for. */
  function DigitsValue(s: string): int {
    if s == "" then 0 else DigitsValue(s[..|s| - 1]) * 10 + (s[|s| - 1] as int - '0' as int)
  }

  /** A decimal numeral for n: digits only, no leading zero. */
  predicate Numeral(s: string, n: nat) {
    |s| > 0 && (forall i :: 0 <= i < |s| ==> IsDigit(s[i])) && (if n == 0 then s == "0" else s[0] != '0') && DigitsValue(s) == n
  }

  lemma DigitIs(n: nat)
    requires n < 10
    ensures Numeral(Decimal(n), n)
  {
    var s := Decimal(n);
    assert s == [('0' as int + n) as char] && s[0] as int == '0' as int + n;
    assert s[..|s| - 1] == "";
    assert DigitsValue(s) == DigitsValue(s[..|s| - 1]) * 10 + (s[0] as int - '0' as int);
  }

  lemma DigitAppended(most: string, m: nat, d: nat)
    requires Numeral(most, m) && m > 0 && d < 10
    ensures Numeral(most + [('0' as int + d) as char], m * 10 + d)
  {
    var s := most + [('0' as int + d) as char];
    assert s[..|s| - 1] == most && s[0] == most[0];
  }

  lemma {:induction false} NumeralOf(n: nat)
    ensures Numeral(Decimal(n), n)
  {
    if n < 10 {
      DigitIs(n);
    } else {
      NumeralOf(n / 10);
      DigitAppended(Decimal(n / 10), n / 10, n % 10);
    }
  }

  /** A number reads as its decimal numeral, after a '-' if it is negative. */
  lemma DecimalIs(n: int)
    ensures if n >= 0 then Numeral(Decimal(n), n) else |Decimal(n)| > 0 && Decimal(n)[0] == '-' && Numeral(Decimal(n)[1..], -n)
  {
    NumeralOf(if n < 0 then -n else n);
    assert n < 0 ==> Decimal(n)[1..] == Decimal(-n);
  }

  predicate LastWith(items: seq<Item>, n: nat, value: int, i: int)
    requires n <= |items|
  {
    0 <= i < n && items[i].value == value && forall j :: i < j < n ==> items[j].value != value
  }

  /** An enum value is named by the last item that has it; without one it has no name. */
  lemma {:induction false} EnumNameIsLast(items: seq<Item>, n: nat, value: int, i: int)
    requires n <= |items|
    ensures EnumToString(items, n, value).None? <==> forall j :: 0 <= j < n ==> items[j].value != value
    ensures LastWith(items, n, value, i) ==> EnumToString(items, n, value) == Some(items[i].name)
  {
    if n > 0 && items[n - 1].value != value {
      EnumNameIsLast(items, n - 1, value, i);
      assert LastWith(items, n, value, i) ==> LastWith(items, n - 1, value, i);
    }
  }

  /** A C string is what stands before the first NUL. */
  lemma {:induction false} CStringIs(s: string)
    ensures CString(s) <= s && '\0' !in CString(s) && (|CString(s)| < |s| ==> s[|CString(s)|] == '\0')
  {
    if s != "" && s[0] != '\0' {
      CStringIs(s[1..]);
    }
  }

  /** Conversion to an integer type gives the number of that type that is equal modulo its size. */
  lemma WrapIs(signed: bool, bits: nat, n: int)
    requires Width(bits)
    ensures Fits(signed, bits, Wrap(signed, bits, n)) && exists k :: n == Wrap(signed, bits, n) + k * Pow2(bits)
  {
    var size := Pow2(bits);
    var q := n / size;
    assert n == n % size + q * size;
    if signed && n % size >= size / 2 {
      assert n == Wrap(signed, bits, n) + (q + 1) * size;
    } else {
      assert n == Wrap(signed, bits, n) + q * size;
    }
  }
}
