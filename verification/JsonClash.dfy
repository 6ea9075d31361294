/** Bases and fields that share a name: which of them come back. */
module JsonClash {
  import opened Basics
  import opened JsonCodec
  import opened JsonParts
  import opened JsonText
  import opened JsonRoundTrip

  datatype Kind = NullKind | BoolKind | NumberKind | StringKind | ArrayKind | ObjectKind

  function KindOf(j: Json): Kind {
    match j
    case JNull => NullKind
    case JBool(_) => BoolKind
    case JInt64(_) => NumberKind
    case JUint64(_) => NumberKind
    case JString(_) => StringKind
    case JArray(_) => ArrayKind
    case JObject(_) => ObjectKind
  }

  /** The kinds of JSON that values of a type are encoded as. */
  function Makes(t: Type): set<Kind> {
    match t
    case TBool => {BoolKind}
    case TInt(_, _) => {NumberKind}
    case TString => {StringKind}
    case TEnum(_) => {StringKind}
    case TStruct(_, _) => {ObjectKind}
    case TPair(_, _) => {ObjectKind}
    case TOptional(elem) => {NullKind} + Makes(elem)
    case _ => {ArrayKind}
  }

  /** The kinds of JSON that can decode into a type. */
  function Accepts(t: Type): set<Kind> {
    match t
    case TBool => {BoolKind, NumberKind}
    case TInt(_, _) => {NumberKind}
    case TString => {BoolKind, NumberKind, StringKind}
    case TEnum(_) => {BoolKind, NumberKind, StringKind}
    case TStruct(_, _) => {ObjectKind}
    case TPair(_, _) => {ObjectKind}
    case TOptional(elem) => {NullKind} + Accepts(elem)
    case _ => {ArrayKind}
  }

  lemma {:induction false} MakesKind(t: Type, v: Value)
    requires WellTyped(t, v) && Encode(t, v).Some?
    ensures KindOf(Encode(t, v).value) in Makes(t) && KindOf(Reparsed(Encode(t, v).value)) in Makes(t)
    decreases t
  {
    if t.TOptional? && v.VSome? {
      MakesKind(t.elem, v.v);
    }
  }

  lemma {:induction false} AcceptsKind(t: Type, j: Json, cur: Value)
    ensures Decode(t, j, cur).Ok? ==> KindOf(j) in Accepts(t)
    decreases t
  {
    if t.TOptional? && !j.JNull? {
      AcceptsKind(t.elem, j, Default(t.elem));
    }
  }

  /**
    A struct in which a base or field cannot read what its last namesake is encoded as never comes
    back, whatever its value and the target: the field overwrites the base, and decoding fails.
  */
  lemma NameClash(t: Type, v: Value, cur: Value, i: nat)
    requires t.TStruct? && WellTyped(t, v) && WellTyped(t, cur) && i < Size(t)
    requires Accepts(SlotAt(t, i).t) !! Makes(SlotAt(t, Home(t, i)).t)
    ensures !Transmit(t, v, cur).Ok?
  {
    if Transmit(t, v, cur).Ok? {
      var w, k := Transmit(t, v, cur).value, Home(t, i);
      StructThrough(t, v, cur, w);
      assert PartEncodes(t, v, k) && SlotReturns(t, v, cur, w, i);
      MakesKind(SlotAt(t, k).t, PartAt(v, k));
      AcceptsKind(SlotAt(t, i).t, ItemFor(t, v, i), PartAt(cur, i));
      assert false;
    }
  }

  /** A hidden base or field comes back as what its last namesake's value decodes to. */
  lemma HiddenComesFromNamesake(t: Type, v: Value, cur: Value, w: Value, i: nat)
    requires t.TStruct? && WellTyped(t, v) && WellTyped(t, cur) && Transmit(t, v, cur) == Ok(w) && i < Size(t)
    ensures PartEncodes(t, v, Home(t, i)) && w.VStruct?
    ensures Decode(SlotAt(t, i).t, Reparsed(Encode(SlotAt(t, Home(t, i)).t, PartAt(v, Home(t, i))).value), PartAt(cur, i)) == Ok(PartAt(w, i))
  {
    StructThrough(t, v, cur, w);
    assert PartEncodes(t, v, Home(t, i)) && SlotReturns(t, v, cur, w, i);
  }

  /**
    Namesakes of one type: when the last one survives, the hidden one gets its value, so it comes
    back exactly when both had the same.
  */
  lemma SameTypeClash(t: Type, v: Value, cur: Value, i: nat)
    requires t.TStruct? && WellFormed(t) && WellTyped(t, v) && WellTyped(t, cur) && Encode(t, v).Some? && i < Size(t)
    requires SlotAt(t, i).t == SlotAt(t, Home(t, i)).t
    ensures var s, x, c := SlotAt(t, i).t, PartAt(v, Home(t, i)), PartAt(cur, i);
            WellFormed(s) && WellTyped(s, x) && WellTyped(s, c) &&
            (Survives(s, x, c) ==> (SlotReturns(t, v, cur, v, i) <==> PartAt(v, i) == x))
  {
    var k := Home(t, i);
    StructThrough(t, v, cur, v);
    assert PartEncodes(t, v, k);
    PartFormed(t, i);
    PartTyped(t, cur, i);
    EveryTypeExact(SlotAt(t, i).t, PartAt(v, k), PartAt(cur, i));
    HomeIsOwn(t, i);
  }

  // ---------------------------------------------------------------- scalar namesakes

  predicate Scalar(t: Type) {
    t.TBool? || t.TInt? || t.TString? || t.TEnum?
  }

  /** What a scalar sent by a namesake reads as text: its C string, its digits, or "0" and "1". */
  function TextOf(from: Type, x: Value): string
    requires Scalar(from) && WellTyped(from, x)
  {
    match from
    case TBool => if x.b then "1" else "0"
    case TInt(_, _) => Decimal(x.n)
    case TString => CString(x.s)
    case TEnum(items) => var name := EnumToString(items, |items|, x.n); if name.None? then "" else name.value
  }

  /**
    The value that a scalar type reads from a scalar of another, or None: flags from numbers that are
    not 0, numbers modulo the size of their type if they fit in 64 signed bits or the type is unsigned
    and not narrow, enums by name.
  */
  function ReadAs(to: Type, from: Type, x: Value): Option<Value>
    requires Scalar(to) && Scalar(from) && WellTyped(from, x)
  {
    match to
    case TBool => if from.TBool? then Some(x) else if from.TInt? then Some(VBool(x.n != 0)) else None
    case TInt(signed, bits) =>
      if from.TInt? && (x.n < 0x8000_0000_0000_0000 || (!signed && bits >= 32)) then Some(VInt(Wrap(signed, bits, x.n))) else None
    case TString => Some(VString(TextOf(from, x)))
    case TEnum(items) =>
      var n := StringToEnum(items, |items|, TextOf(from, x)); if n.None? then None else Some(VInt(n.value))
  }

  /** Narrowing through 32 bits is narrowing. */
  lemma WrapTwice(signed: bool, bits: nat, n: int)
    requires bits == 8 || bits == 16
    ensures Wrap(signed, bits, Wrap(true, 32, n)) == Wrap(signed, bits, n)
  {
    var m := Wrap(true, 32, n);
    var k := (n - m) / 0x1_0000_0000;
    assert n == m + k * 0x1_0000_0000;
    if bits == 8 {
      ModByte(m, k * 0x100_0000);
    } else {
      ModShort(m, k * 0x1_0000);
    }
  }

  lemma ModByte(m: int, k: int)
    ensures (m + k * 0x100) % 0x100 == m % 0x100
  {
  }

  lemma ModShort(m: int, k: int)
    ensures (m + k * 0x1_0000) % 0x1_0000 == m % 0x1_0000
  {
  }

  lemma ScalarReads(to: Type, from: Type, x: Value, c: Value)
    requires Scalar(to) && Scalar(from) && WellFormed(to) && WellFormed(from) && WellTyped(from, x) && Encode(from, x).Some?
    ensures Decode(to, Reparsed(Encode(from, x).value), c) ==
            if ReadAs(to, from, x).Some? then Ok(ReadAs(to, from, x).value) else Threw
  {
    if to.TInt? {
      if from.TInt? {
        NumberReads(to, from, x, c);
      }
    } else if !to.TBool? {
      TextReads(to, from, x, c);
    }
  }

  lemma NumberReads(to: Type, from: Type, x: Value, c: Value)
    requires to.TInt? && from.TInt? && WellFormed(to) && WellFormed(from) && WellTyped(from, x)
    ensures Decode(to, Reparsed(Encode(from, x).value), c) ==
            if ReadAs(to, from, x).Some? then Ok(ReadAs(to, from, x).value) else Threw
  {
    if to.bits < 32 {
      WrapTwice(to.signed, to.bits, x.n);
    }
  }

  lemma TextReads(to: Type, from: Type, x: Value, c: Value)
    requires (to.TString? || to.TEnum?) && Scalar(from) && WellFormed(from) && WellTyped(from, x) && Encode(from, x).Some?
    ensures ToText(Reparsed(Encode(from, x).value)) == Ok(TextOf(from, x))
    ensures Decode(to, Reparsed(Encode(from, x).value), c) ==
            if ReadAs(to, from, x).Some? then Ok(ReadAs(to, from, x).value) else Threw
  {
    if from.TEnum? {
      EnumNamePlain(from.items, x.n);
    }
  }

  /** Of two scalar namesakes the hidden one comes back exactly when it is what its type reads from the other's value. */
  lemma ScalarClash(t: Type, v: Value, cur: Value, i: nat)
    requires t.TStruct? && WellFormed(t) && WellTyped(t, v) && WellTyped(t, cur) && Encode(t, v).Some? && i < Size(t)
    requires Scalar(SlotAt(t, i).t) && Scalar(SlotAt(t, Home(t, i)).t)
    ensures WellTyped(SlotAt(t, Home(t, i)).t, PartAt(v, Home(t, i)))
    ensures SlotReturns(t, v, cur, v, i) <==> ReadAs(SlotAt(t, i).t, SlotAt(t, Home(t, i)).t, PartAt(v, Home(t, i))) == Some(PartAt(v, i))
  {
    var k := Home(t, i);
    StructThrough(t, v, cur, v);
    assert PartEncodes(t, v, k);
    PartFormed(t, i);
    PartFormed(t, k);
    ScalarReads(SlotAt(t, i).t, SlotAt(t, k).t, PartAt(v, k), PartAt(cur, i));
  }
}
