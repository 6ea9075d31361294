/**
  The reflective JSON serializer: a type-directed encoder and decoder over structs with bases,
  enums, optionals, tuples, pairs and containers, and what printing and parsing the text in
  between does to numbers.
*/
module JsonCodec {
  import opened Basics

  /** `Threw` is an exception, `Undefined` a null dereference or an index out of range. */
  datatype Outcome<+T> = Ok(value: T) | Threw | Undefined

  // ---------------------------------------------------------------- types and values

  datatype Item = Item(name: string, value: int)

  /** A base or a field: its name, its type, and what the constructor of the struct leaves in it. */
  datatype Slot = Slot(name: string, t: Type, init: Value)

  datatype Type =
    | TBool
    | TInt(signed: bool, bits: nat)
    | TString
    | TEnum(items: seq<Item>)
    | TStruct(bases: seq<Slot>, fields: seq<Slot>)
    | TOptional(elem: Type)
    | TTuple(elems: seq<Type>)
    | TPair(first: Type, second: Type)
    | TArray(elem: Type, size: nat)
    | TList(elem: Type)
    | TSet(elem: Type, less: (Value, Value) -> bool)

  datatype Value =
    | VBool(b: bool)
    | VInt(n: int)
    | VString(s: string)
    | VStruct(bases: seq<Value>, fields: seq<Value>)
    | VNone
    | VSome(v: Value)
    | VTuple(elems: seq<Value>)
    | VPair(first: Value, second: Value)
    | VList(elems: seq<Value>)

  datatype Member = Member(key: string, value: Json)

  /** JSON values with the two integer kinds of the library. */
  datatype Json =
    | JNull
    | JBool(b: bool)
    | JInt64(n: int)
    | JUint64(n: int)
    | JString(s: string)
    | JArray(items: seq<Json>)
    | JObject(members: seq<Member>)

  function Pow2(bits: nat): int {
    if bits == 8 then 0x100 else if bits == 16 then 0x1_0000
    else if bits == 32 then 0x1_0000_0000 else 0x1_0000_0000_0000_0000
  }

  predicate Width(bits: nat) {
    bits == 8 || bits == 16 || bits == 32 || bits == 64
  }

  predicate Fits(signed: bool, bits: nat, n: int) {
    if signed then -(Pow2(bits) / 2) <= n < Pow2(bits) / 2 else 0 <= n < Pow2(bits)
  }

  /** Conversion to an integer type: the value modulo its size. */
  function Wrap(signed: bool, bits: nat, n: int): int {
    var m := n % Pow2(bits);
    if signed && m >= Pow2(bits) / 2 then m - Pow2(bits) else m
  }

  ghost predicate Sorted(less: (Value, Value) -> bool, vs: seq<Value>) {
    forall i, j :: 0 <= i < j < |vs| ==> less(vs[i], vs[j])
  }

  ghost predicate WellTyped(t: Type, v: Value)
    decreases t
  {
    match t
    case TBool => v.VBool?
    case TInt(signed, bits) => v.VInt? && Fits(signed, bits, v.n)
    case TString => v.VString?
    case TEnum(_) => v.VInt?
    case TStruct(bases, fields) =>
      v.VStruct? && |v.bases| == |bases| && |v.fields| == |fields| &&
      (forall i :: 0 <= i < |bases| ==> WellTyped(bases[i].t, v.bases[i])) &&
      (forall i :: 0 <= i < |fields| ==> WellTyped(fields[i].t, v.fields[i]))
    case TOptional(elem) => v.VNone? || (v.VSome? && WellTyped(elem, v.v))
    case TTuple(elems) => v.VTuple? && |v.elems| == |elems| && forall i :: 0 <= i < |elems| ==> WellTyped(elems[i], v.elems[i])
    case TPair(first, second) => v.VPair? && WellTyped(first, v.first) && WellTyped(second, v.second)
    case TArray(elem, size) => v.VList? && |v.elems| == size && forall i :: 0 <= i < |v.elems| ==> WellTyped(elem, v.elems[i])
    case TList(elem) => v.VList? && forall i :: 0 <= i < |v.elems| ==> WellTyped(elem, v.elems[i])
    case TSet(elem, less) =>
      v.VList? && Sorted(less, v.elems) && forall i :: 0 <= i < |v.elems| ==> WellTyped(elem, v.elems[i])
  }

  predicate Continues(c: char, low: int, high: int) {
    low <= c as int <= high
  }

  /** Well-formed UTF-8 (section 4 of RFC 3629). A character of a string stands for one byte. */
  predicate ValidUtf8(s: string) {
    s == "" ||
    var b := s[0] as int;
    if b < 0x80 then ValidUtf8(s[1..])
    else if 0xC2 <= b <= 0xDF then |s| >= 2 && Continues(s[1], 0x80, 0xBF) && ValidUtf8(s[2..])
    else if 0xE0 <= b <= 0xEF then
      |s| >= 3 && Continues(s[1], if b == 0xE0 then 0xA0 else 0x80, if b == 0xED then 0x9F else 0xBF) &&
      Continues(s[2], 0x80, 0xBF) && ValidUtf8(s[3..])
    else if 0xF0 <= b <= 0xF4 then
      |s| >= 4 && Continues(s[1], if b == 0xF0 then 0x90 else 0x80, if b == 0xF4 then 0x8F else 0xBF) &&
      Continues(s[2], 0x80, 0xBF) && Continues(s[3], 0x80, 0xBF) && ValidUtf8(s[4..])
    else false
  }

  /** Names are identifiers: they hold no NUL and are text. */
  predicate PlainName(name: string) {
    '\0' !in name && ValidUtf8(name)
  }

  /**
    What C++ and the reflection macros guarantee of a type. A base may have the name of a field or
    of another base.
  */
  ghost predicate WellFormed(t: Type) {
    match t
    case TBool => true
    case TInt(_, bits) => Width(bits)
    case TString => true
    case TEnum(items) =>
      (forall i, j :: 0 <= i < j < |items| ==> items[i].name != items[j].name) &&
      (forall i :: 0 <= i < |items| ==> PlainName(items[i].name))
    case TStruct(bases, fields) =>
      (forall i :: 0 <= i < |bases| ==> PlainName(bases[i].name) && WellFormed(bases[i].t) && WellTyped(bases[i].t, bases[i].init)) &&
      (forall i :: 0 <= i < |fields| ==> PlainName(fields[i].name) && WellFormed(fields[i].t) && WellTyped(fields[i].t, fields[i].init))
    case TOptional(elem) => WellFormed(elem)
    case TTuple(elems) => forall i :: 0 <= i < |elems| ==> WellFormed(elems[i])
    case TPair(first, second) => WellFormed(first) && WellFormed(second)
    case TArray(elem, _) => WellFormed(elem)
    case TList(elem) => WellFormed(elem)
    case TSet(elem, _) => WellFormed(elem)
  }

  /** A value-initialised object. */
  function Default(t: Type): (r: Value)
    ensures WellFormed(t) ==> WellTyped(t, r)
    decreases t
  {
    match t
    case TBool => VBool(false)
    case TInt(_, _) => VInt(0)
    case TString => VString("")
    case TEnum(_) => VInt(0)
    case TStruct(bases, fields) => VStruct(Inits(bases), Inits(fields))
    case TOptional(_) => VNone
    case TTuple(elems) => VTuple(seq(|elems|, i requires 0 <= i < |elems| => Default(elems[i])))
    case TPair(first, second) => VPair(Default(first), Default(second))
    case TArray(elem, size) => VList(seq(size, _ => Default(elem)))
    case TList(_) => VList([])
    case TSet(_, _) => VList([])
  }

  function Inits(slots: seq<Slot>): seq<Value> {
    seq(|slots|, i requires 0 <= i < |slots| => slots[i].init)
  }

  // ---------------------------------------------------------------- enums

  /** `EnumValueToString`: from the last item down, so the last alias of a value gives the name. */
  function EnumToString(items: seq<Item>, n: nat, value: int): Option<string>
    requires n <= |items|
  {
    if n == 0 then None
    else if items[n - 1].value == value then Some(items[n - 1].name)
    else EnumToString(items, n - 1, value)
  }

  function StringToEnum(items: seq<Item>, n: nat, name: string): Option<int>
    requires n <= |items|
  {
    if n == 0 then None
    else if name == items[n - 1].name then Some(items[n - 1].value)
    else StringToEnum(items, n - 1, name)
  }

  lemma {:induction false} EnumName(items: seq<Item>, n: nat, value: int)
    requires n <= |items|
    ensures EnumToString(items, n, value).Some? ==>
              exists i :: 0 <= i < n && items[i].value == value && EnumToString(items, n, value) == Some(items[i].name)
  {
    if n > 0 && items[n - 1].value != value {
      EnumName(items, n - 1, value);
    }
  }

  lemma {:induction false} EnumValue(items: seq<Item>, n: nat, i: nat)
    requires i < n <= |items| && forall j, k :: 0 <= j < k < |items| ==> items[j].name != items[k].name
    ensures StringToEnum(items, n, items[i].name) == Some(items[i].value)
  {
    if i < n - 1 {
      EnumValue(items, n - 1, i);
    }
  }

  /** The name found for an enum value gives that value back, aliases or not. */
  lemma EnumRoundTrip(items: seq<Item>, value: int)
    requires forall j, k :: 0 <= j < k < |items| ==> items[j].name != items[k].name
    requires EnumToString(items, |items|, value).Some?
    ensures StringToEnum(items, |items|, EnumToString(items, |items|, value).value) == Some(value)
  {
    EnumName(items, |items|, value);
    var i :| 0 <= i < |items| && items[i].value == value && EnumToString(items, |items|, value) == Some(items[i].name);
    EnumValue(items, |items|, i);
  }

  // ---------------------------------------------------------------- encoder

  /** `root[key] = value`. */
  function Assign(members: seq<Member>, key: string, value: Json): seq<Member> {
    if members == [] then [Member(key, value)]
    else if members[0].key == key then [Member(key, value)] + members[1..]
    else [members[0]] + Assign(members[1..], key, value)
  }

  function Lookup(members: seq<Member>, key: string): Option<Json> {
    if members == [] then None
    else if members[0].key == key then Some(members[0].value)
    else Lookup(members[1..], key)
  }

  /** `ValueToJson`; None is the exception of an enum value that has no name. */
  function Encode(t: Type, v: Value): Option<Json>
    requires WellTyped(t, v)
    decreases t, 1
  {
    match t
    case TBool => Some(JBool(v.b))
    case TInt(signed, _) => Some(if signed then JInt64(v.n) else JUint64(v.n))
    case TString => Some(JString(v.s))
    case TEnum(items) =>
      var name := EnumToString(items, |items|, v.n);
      if name.None? then None else Some(JString(name.value))
    case TStruct(bases, fields) =>
      var root := EncodeSlots(bases, v.bases, |bases|, []);
      if root.None? then None
      else
        var full := EncodeSlots(fields, v.fields, |fields|, root.value);
        if full.None? then None else Some(JObject(full.value))
    case TOptional(elem) => if v.VNone? then Some(JNull) else Encode(elem, v.v)
    case TTuple(elems) =>
      var items := EncodeTuple(elems, v.elems, |elems|);
      if items.None? then None else Some(JArray(items.value))
    case TPair(first, second) =>
      var a, b := Encode(first, v.first), Encode(second, v.second);
      if a.None? || b.None? then None else Some(JObject(Assign(Assign([], "id", a.value), "val", b.value)))
    case TArray(elem, _) => ListJson(EncodeList(elem, v.elems))
    case TList(elem) => ListJson(EncodeList(elem, v.elems))
    case TSet(elem, _) => ListJson(EncodeList(elem, v.elems))
  }

  function ListJson(items: Option<seq<Json>>): Option<Json> {
    if items.None? then None else Some(JArray(items.value))
  }

  /** `Serializer<n>` and `BasesSerializer<n>`: the first n - 1, then the last. */
  function EncodeSlots(slots: seq<Slot>, vs: seq<Value>, n: nat, root: seq<Member>): Option<seq<Member>>
    requires n <= |slots| == |vs| && forall i :: 0 <= i < |slots| ==> WellTyped(slots[i].t, vs[i])
    decreases slots, 0, n
  {
    if n == 0 then Some(root)
    else
      var before := EncodeSlots(slots, vs, n - 1, root);
      var last := Encode(slots[n - 1].t, vs[n - 1]);
      if before.None? || last.None? then None else Some(Assign(before.value, slots[n - 1].name, last.value))
  }

  function EncodeTuple(ts: seq<Type>, vs: seq<Value>, n: nat): Option<seq<Json>>
    requires n <= |ts| == |vs| && forall i :: 0 <= i < |ts| ==> WellTyped(ts[i], vs[i])
    decreases ts, 0, n
  {
    if n == 0 then Some([])
    else
      var before := EncodeTuple(ts, vs, n - 1);
      var last := Encode(ts[n - 1], vs[n - 1]);
      if before.None? || last.None? then None else Some(before.value + [last.value])
  }

  function EncodeList(elem: Type, vs: seq<Value>): Option<seq<Json>>
    requires forall i :: 0 <= i < |vs| ==> WellTyped(elem, vs[i])
    decreases elem, 2, |vs|
  {
    if vs == [] then Some([])
    else
      var before := EncodeList(elem, vs[..|vs| - 1]);
      var last := Encode(elem, vs[|vs| - 1]);
      if before.None? || last.None? then None else Some(before.value + [last.value])
  }

  // ---------------------------------------------------------------- text in between

  /** The nesting that the parser accepts unless it is told otherwise. */
  const MAX_DEPTH: nat := 32

  /** The parser accepts the printed text: strings are UTF-8 and nothing is nested deeper than d. */
  predicate Parsable(j: Json, d: nat)
    decreases j
  {
    match j
    case JString(s) => ValidUtf8(s)
    case JArray(items) => d > 0 && forall i :: 0 <= i < |items| ==> Parsable(items[i], d - 1)
    case JObject(members) =>
      d > 0 && forall i :: 0 <= i < |members| ==> ValidUtf8(members[i].key) && Parsable(members[i].value, d - 1)
    case _ => true
  }

  /** What printing a JSON value and parsing the text gives: integers that fit come back as int64. */
  function Reparsed(j: Json): Json
    decreases j
  {
    match j
    case JUint64(n) => if n < 0x8000_0000_0000_0000 then JInt64(n) else j
    case JArray(items) => JArray(seq(|items|, i requires 0 <= i < |items| => Reparsed(items[i])))
    case JObject(members) =>
      JObject(seq(|members|, i requires 0 <= i < |members| => Member(members[i].key, Reparsed(members[i].value))))
    case _ => j
  }

  // ---------------------------------------------------------------- decoder

  function Decimal(n: int): string
    decreases n < 0, if n < 0 then -n else n
  {
    if n < 0 then "-" + Decimal(-n)
    else if n < 10 then [('0' as int + n) as char]
    else Decimal(n / 10) + [('0' as int + n % 10) as char]
  }

  /** A string as `c_str()` shows it: up to the first NUL. */
  function CString(s: string): string {
    if s == "" || s[0] == '\0' then "" else [s[0]] + CString(s[1..])
  }

  /** `JsonValueConverter<std::string>`. */
  function ToText(j: Json): Outcome<string> {
    match j
    case JBool(b) => Ok(if b then "1" else "0")
    case JInt64(n) => Ok(Decimal(n))
    case JString(s) => Ok(CString(s))
    case JUint64(n) => Ok(Decimal(n))
    case _ => Threw
  }

  /** `JsonValueConverter` of the integer types. Narrow types go through int32, which accepts int64 only. */
  function ToInt(signed: bool, bits: nat, j: Json): Outcome<int> {
    match j
    case JInt64(n) =>
      if bits == 64 || bits == 32 then Ok(Wrap(signed, bits, n)) else Ok(Wrap(signed, bits, Wrap(true, 32, n)))
    case JUint64(n) => if !signed && (bits == 64 || bits == 32) then Ok(Wrap(signed, bits, n)) else Threw
    case _ => Threw
  }

  function ToBool(j: Json): Outcome<bool> {
    match j
    case JBool(b) => Ok(b)
    case JInt64(n) => Ok(n != 0)
    case JUint64(n) => Ok(n != 0)
    case _ => Threw
  }

  function At(vs: seq<Value>, i: nat): Value {
    if i < |vs| then vs[i] else VNone
  }

  function BasesOf(v: Value): seq<Value> {
    if v.VStruct? then v.bases else []
  }

  function FieldsOf(v: Value): seq<Value> {
    if v.VStruct? then v.fields else []
  }

  function ElemsOf(v: Value): seq<Value> {
    if v.VTuple? then v.elems else []
  }

  /** Insertion into an ordered container: an equivalent element is kept. */
  function InsertOrdered(less: (Value, Value) -> bool, vs: seq<Value>, v: Value): seq<Value> {
    if vs == [] then [v]
    else if less(vs[0], v) then [vs[0]] + InsertOrdered(less, vs[1..], v)
    else if less(v, vs[0]) then [v] + vs
    else vs
  }

  function Both<A, B, C>(a: Outcome<A>, b: Outcome<B>, f: (A, B) -> C): Outcome<C> {
    if a.Threw? then Threw else if a.Undefined? then Undefined
    else if b.Threw? then Threw else if b.Undefined? then Undefined
    else Ok(f(a.value, b.value))
  }

  /** Decoding the last of several parts after the others. */
  function Appended(before: Outcome<seq<Value>>, last: Outcome<Value>): Outcome<seq<Value>> {
    Both(before, last, (vs: seq<Value>, v: Value) => vs + [v])
  }

  function Inserted(less: (Value, Value) -> bool, before: Outcome<seq<Value>>, last: Outcome<Value>): Outcome<seq<Value>> {
    Both(before, last, (vs: seq<Value>, v: Value) => InsertOrdered(less, vs, v))
  }

  /** `JsonToValue` into an object that holds `cur`. A null leaves optionals and pointers as they are. */
  function Decode(t: Type, j: Json, cur: Value): Outcome<Value>
    decreases t, 1
  {
    match t
    case TBool => (match ToBool(j) case Ok(b) => Ok(VBool(b)) case Threw => Threw case Undefined => Undefined)
    case TInt(signed, bits) =>
      (match ToInt(signed, bits, j) case Ok(n) => Ok(VInt(n)) case Threw => Threw case Undefined => Undefined)
    case TString => (match ToText(j) case Ok(s) => Ok(VString(s)) case Threw => Threw case Undefined => Undefined)
    case TEnum(items) =>
      (match ToText(j)
       case Ok(s) => (match StringToEnum(items, |items|, s) case Some(n) => Ok(VInt(n)) case None => Threw)
       case Threw => Threw
       case Undefined => Undefined)
    case TStruct(bases, fields) =>
      if !j.JObject? then Threw
      else Both(DecodeSlots(bases, j.members, BasesOf(cur), |bases|, true),
                DecodeSlots(fields, j.members, FieldsOf(cur), |fields|, false),
                (a: seq<Value>, b: seq<Value>) => VStruct(a, b))
    case TOptional(elem) =>
      if j.JNull? then Ok(cur)
      else (match Decode(elem, j, Default(elem)) case Ok(v) => Ok(VSome(v)) case Threw => Threw case Undefined => Undefined)
    case TTuple(elems) =>
      if !j.JArray? then Threw
      else (match DecodeTuple(elems, j.items, ElemsOf(cur), |elems|)
            case Ok(vs) => Ok(VTuple(vs)) case Threw => Threw case Undefined => Undefined)
    case TPair(first, second) =>
      if !j.JObject? then Undefined
      else
        var a, b := Lookup(j.members, "id"), Lookup(j.members, "val");
        if a.None? || b.None? then Undefined
        else Both(Decode(first, a.value, if cur.VPair? then cur.first else VNone),
                  Decode(second, b.value, if cur.VPair? then cur.second else VNone),
                  (x: Value, y: Value) => VPair(x, y))
    case TArray(elem, size) =>
      if !j.JArray? then Threw else if |j.items| < size then Undefined
      else ListValue(DecodeList(elem, j.items[..size]))
    case TList(elem) => if !j.JArray? then Threw else ListValue(DecodeList(elem, j.items))
    case TSet(elem, less) => if !j.JArray? then Threw else ListValue(DecodeSet(elem, less, j.items))
  }

  function ListValue(vs: Outcome<seq<Value>>): Outcome<Value> {
    match vs case Ok(s) => Ok(VList(s)) case Threw => Threw case Undefined => Undefined
  }

  /** `BasesDeserializer<n>`, where a missing member throws, and `Deserializer<n>`, where it reads as null. */
  function DecodeSlots(slots: seq<Slot>, members: seq<Member>, cur: seq<Value>, n: nat, strict: bool): Outcome<seq<Value>>
    requires n <= |slots|
    decreases slots, 0, n
  {
    if n == 0 then Ok([])
    else
      var found := Lookup(members, slots[n - 1].name);
      Appended(DecodeSlots(slots, members, cur, n - 1, strict),
               if found.None? && strict then Threw
               else Decode(slots[n - 1].t, if found.None? then JNull else found.value, At(cur, n - 1)))
  }

  function DecodeTuple(ts: seq<Type>, items: seq<Json>, cur: seq<Value>, n: nat): Outcome<seq<Value>>
    requires n <= |ts|
    decreases ts, 0, n
  {
    if n == 0 then Ok([])
    else Appended(DecodeTuple(ts, items, cur, n - 1),
                  if n - 1 < |items| then Decode(ts[n - 1], items[n - 1], At(cur, n - 1)) else Undefined)
  }

  /** Sequence containers append; `std::array` decodes into a fresh array. */
  function DecodeList(elem: Type, items: seq<Json>): Outcome<seq<Value>>
    decreases elem, 2, |items|
  {
    if items == [] then Ok([])
    else Appended(DecodeList(elem, items[..|items| - 1]), Decode(elem, items[|items| - 1], Default(elem)))
  }

  /** Ordered containers insert where the element belongs. */
  function DecodeSet(elem: Type, less: (Value, Value) -> bool, items: seq<Json>): Outcome<seq<Value>>
    decreases elem, 2, |items|
  {
    if items == [] then Ok([])
    else Inserted(less, DecodeSet(elem, less, items[..|items| - 1]), Decode(elem, items[|items| - 1], Default(elem)))
  }
}
