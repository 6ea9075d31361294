/**
  Sending a value again and again never leads back to it: a value that is changed by the trip loses
  weight. This is why a set whose elements were changed cannot come back as the same set.
*/
module JsonBurden {
  import opened Basics
  import opened JsonCodec
  import opened JsonParts

  function ListOf(v: Value): seq<Value> {
    if v.VList? then v.elems else []
  }

  /**
    The characters of the strings, the nulls that are out of place, with what takes their place, and
    the slots that would change because a later slot has their name. A slot of its own outweighs all
    of the latter together.
  */
  ghost function Burden(t: Type, v: Value, cur: Value): nat
    decreases t, 1
  {
    match t
    case TString => if v.VString? then |v.s| else 0
    case TStruct(_, _) => Weighted(Size(t), Sum(PartWeights(t, v, cur)), Sum(Stales(t, v, cur)))
    case TOptional(elem) =>
      if IsNull(t, v) then
        if v == cur then 0
        else if IsNull(t, cur) || !cur.VSome? then 1
        else 1 + Burden(elem, cur.v, Default(elem))
      else if v.VSome? then Burden(elem, v.v, Default(elem))
      else 0
    case TTuple(elems) => Sum(TupleWeights(elems, ElemsOf(v), ElemsOf(cur)))
    case TPair(first, second) =>
      if v.VPair? && cur.VPair? then Burden(first, v.first, cur.first) + Burden(second, v.second, cur.second) else 0
    case TArray(elem, _) => BurdenList(elem, ListOf(v))
    case TList(elem) => BurdenList(elem, ListOf(v))
    case TSet(elem, _) => BurdenList(elem, ListOf(v))
    case _ => 0
  }

  function Weighted(n: nat, heavy: nat, light: nat): nat {
    (n + 1) * heavy + light
  }

  function Sum(s: seq<nat>): nat {
    if s == [] then 0 else Sum(s[..|s| - 1]) + s[|s| - 1]
  }

  ghost function PartWeights(t: Type, v: Value, cur: Value): (r: seq<nat>)
    requires t.TStruct?
    ensures |r| == Size(t)
    decreases t, 0
  {
    seq(Size(t), i requires 0 <= i < Size(t) => if Own(t, i) then Burden(SlotAt(t, i).t, PartAt(v, i), PartAt(cur, i)) else 0)
  }

  /** Slot i is hidden and does not have the value that is sent under its name. */
  ghost predicate Stale(t: Type, v: Value, cur: Value, i: nat)
    requires t.TStruct? && i < Size(t)
  {
    !Own(t, i) && !SlotReturns(t, v, cur, v, i)
  }

  ghost function Stales(t: Type, v: Value, cur: Value): (r: seq<nat>)
    requires t.TStruct?
    ensures |r| == Size(t)
  {
    seq(Size(t), i requires 0 <= i < Size(t) => if Stale(t, v, cur, i) then 1 else 0)
  }

  ghost function TupleWeights(ts: seq<Type>, vs: seq<Value>, cur: seq<Value>): (r: seq<nat>)
    ensures |r| == |ts|
    decreases ts, 0
  {
    seq(|ts|, i requires 0 <= i < |ts| => Burden(ts[i], At(vs, i), At(cur, i)))
  }

  /** Every element weighs something, so that losing one counts. */
  ghost function BurdenList(elem: Type, vs: seq<Value>): nat
    decreases elem, 2, |vs|
  {
    if vs == [] then 0 else BurdenList(elem, vs[..|vs| - 1]) + 1 + Burden(elem, vs[|vs| - 1], Default(elem))
  }

  /** What one trip does: nothing, or less weight. */
  ghost predicate Lighter(t: Type, w: Value, v: Value, cur: Value) {
    w == v || Burden(t, w, cur) < Burden(t, v, cur)
  }

  // ---------------------------------------------------------------- sums

  lemma Outweighs(n: nat, a: nat, b: nat, c: nat, d: nat)
    requires b <= n && (a < c || (a <= c && b < d))
    ensures Weighted(n, a, b) < Weighted(n, c, d)
  {
    if a < c {
      assert (n + 1) * (a + 1) <= (n + 1) * c;
    }
  }

  lemma {:induction false} SumLess(a: seq<nat>, b: seq<nat>)
    requires |a| == |b| && forall i :: 0 <= i < |a| ==> a[i] <= b[i]
    ensures Sum(a) <= Sum(b)
    ensures (exists i :: 0 <= i < |a| && a[i] < b[i]) ==> Sum(a) < Sum(b)
  {
    if a != [] {
      SumLess(a[..|a| - 1], b[..|b| - 1]);
    }
  }

  lemma {:induction false} SumBounds(a: seq<nat>)
    requires forall i :: 0 <= i < |a| ==> a[i] <= 1
    ensures Sum(a) <= |a|
    ensures Sum(a) == 0 <==> forall i :: 0 <= i < |a| ==> a[i] == 0
  {
    if a != [] {
      SumBounds(a[..|a| - 1]);
    }
  }

  lemma PartsLighter(t: Type, w: Value, v: Value, cur: Value)
    requires t.TStruct?
    requires forall i :: 0 <= i < Size(t) && Own(t, i) ==> Lighter(SlotAt(t, i).t, PartAt(w, i), PartAt(v, i), PartAt(cur, i))
    ensures Sum(PartWeights(t, w, cur)) <= Sum(PartWeights(t, v, cur))
    ensures (exists i :: 0 <= i < Size(t) && Own(t, i) && PartAt(w, i) != PartAt(v, i)) ==>
              Sum(PartWeights(t, w, cur)) < Sum(PartWeights(t, v, cur))
  {
    var a, b := PartWeights(t, w, cur), PartWeights(t, v, cur);
    forall i | 0 <= i < Size(t)
      ensures a[i] <= b[i] && (Own(t, i) && PartAt(w, i) != PartAt(v, i) ==> a[i] < b[i])
    {
      PartLighter(t, w, v, cur, i);
    }
    SumLess(a, b);
  }

  lemma PartLighter(t: Type, w: Value, v: Value, cur: Value, i: nat)
    requires t.TStruct? && i < Size(t)
    requires Own(t, i) ==> Lighter(SlotAt(t, i).t, PartAt(w, i), PartAt(v, i), PartAt(cur, i))
    ensures PartWeights(t, w, cur)[i] <= PartWeights(t, v, cur)[i]
    ensures Own(t, i) && PartAt(w, i) != PartAt(v, i) ==> PartWeights(t, w, cur)[i] < PartWeights(t, v, cur)[i]
  {
  }

  lemma TupleLighter(ts: seq<Type>, ws: seq<Value>, vs: seq<Value>, cur: seq<Value>)
    requires |ts| == |ws| == |vs| == |cur|
    requires forall i :: 0 <= i < |ts| ==> Lighter(ts[i], ws[i], vs[i], cur[i])
    ensures Sum(TupleWeights(ts, ws, cur)) <= Sum(TupleWeights(ts, vs, cur))
    ensures ws != vs ==> Sum(TupleWeights(ts, ws, cur)) < Sum(TupleWeights(ts, vs, cur))
  {
    var a, b := TupleWeights(ts, ws, cur), TupleWeights(ts, vs, cur);
    forall i | 0 <= i < |ts| ensures a[i] <= b[i] && (ws[i] != vs[i] ==> a[i] < b[i]) {
      assert Lighter(ts[i], ws[i], vs[i], cur[i]);
    }
    SumLess(a, b);
  }

  lemma BurdenAppend(elem: Type, vs: seq<Value>, v: Value)
    ensures BurdenList(elem, vs + [v]) == BurdenList(elem, vs) + 1 + Burden(elem, v, Default(elem))
  {
    assert (vs + [v])[..|vs + [v]| - 1] == vs;
  }

  ghost predicate AllLighter(elem: Type, ws: seq<Value>, vs: seq<Value>) {
    |ws| == |vs| && forall i :: 0 <= i < |vs| ==> Lighter(elem, ws[i], vs[i], Default(elem))
  }

  lemma {:induction false} ListLighter(elem: Type, ws: seq<Value>, vs: seq<Value>)
    requires AllLighter(elem, ws, vs)
    ensures BurdenList(elem, ws) <= BurdenList(elem, vs)
    ensures ws != vs ==> BurdenList(elem, ws) < BurdenList(elem, vs)
    decreases |vs|
  {
    if vs != [] {
      var n := |vs| - 1;
      var w, v := ws[n], vs[n];
      assert ws == ws[..n] + [w] && vs == vs[..n] + [v];
      LighterLast(elem, ws[..n], w, vs[..n], v);
      ListLighter(elem, ws[..n], vs[..n]);
      BurdenAppend(elem, ws[..n], w);
      BurdenAppend(elem, vs[..n], v);
    }
  }

  lemma LighterLast(elem: Type, ws: seq<Value>, w: Value, vs: seq<Value>, v: Value)
    requires |ws| == |vs| && AllLighter(elem, ws + [w], vs + [v])
    ensures AllLighter(elem, ws, vs) && Lighter(elem, w, v, Default(elem))
  {
    var a, b := ws + [w], vs + [v];
    assert Lighter(elem, a[|vs|], b[|vs|], Default(elem));
    forall i | 0 <= i < |vs| ensures Lighter(elem, ws[i], vs[i], Default(elem)) {
      assert Lighter(elem, a[i], b[i], Default(elem));
    }
  }

  lemma {:induction false} BurdenWithout(elem: Type, left: seq<Value>, x: Value, right: seq<Value>)
    ensures BurdenList(elem, left + [x] + right) == BurdenList(elem, left + right) + 1 + Burden(elem, x, Default(elem))
    decreases |right|
  {
    if right == [] {
      assert left + [x] + right == left + [x] && left + right == left;
      BurdenAppend(elem, left, x);
    } else {
      var rest, last := right[..|right| - 1], right[|right| - 1];
      assert left + [x] + right == (left + [x] + rest) + [last] && left + right == (left + rest) + [last];
      BurdenWithout(elem, left, x, rest);
      BurdenAppend(elem, left + [x] + rest, last);
      BurdenAppend(elem, left + rest, last);
    }
  }

  lemma TakeBoth(a: seq<Value>, x: Value, left: seq<Value>, right: seq<Value>)
    requires multiset(a + [x]) <= multiset(left + [x] + right)
    ensures multiset(a) <= multiset(left + right)
  {
    forall y ensures multiset(a)[y] <= multiset(left + right)[y] {
      assert multiset(a + [x])[y] == multiset(a)[y] + multiset{x}[y];
      assert multiset(left + [x] + right)[y] == multiset(left)[y] + multiset{x}[y] + multiset(right)[y];
      assert multiset(left + right)[y] == multiset(left)[y] + multiset(right)[y];
    }
  }

  lemma FindIn(a: seq<Value>, x: Value, b: seq<Value>) returns (left: seq<Value>, right: seq<Value>)
    requires multiset(a + [x]) <= multiset(b)
    ensures b == left + [x] + right && multiset(a) <= multiset(left + right)
  {
    assert x in multiset(a + [x]) && x in b;
    var i :| 0 <= i < |b| && b[i] == x;
    left, right := b[..i], b[i + 1..];
    assert b == left + [x] + right;
    TakeBoth(a, x, left, right);
  }

  /** A part of a list, in any order, weighs no more than the list. */
  lemma {:induction false} PartWeighsLess(elem: Type, a: seq<Value>, b: seq<Value>)
    requires multiset(a) <= multiset(b)
    ensures BurdenList(elem, a) <= BurdenList(elem, b)
    decreases |a|
  {
    if a != [] {
      var most, x := a[..|a| - 1], a[|a| - 1];
      assert a == most + [x];
      var left, right := FindIn(most, x, b);
      PartWeighsLess(elem, most, left + right);
      BurdenAppend(elem, most, x);
      BurdenWithout(elem, left, x, right);
    }
  }

  // ---------------------------------------------------------------- one trip

  /** What is not null does not become null in a new object. */
  lemma {:induction false} NeverBecomesNull(t: Type, v: Value, w: Value)
    requires WellTyped(t, v) && !IsNull(t, v) && Through(t, v, Default(t)) == Ok(w)
    ensures !IsNull(t, w)
    decreases t
  {
    if t.TOptional? {
      NullIff(t, v);
      var inner := Through(t.elem, v.v, Default(t.elem));
      assert inner.Ok? && w == VSome(inner.value);
      NeverBecomesNull(t.elem, v.v, inner.value);
    }
  }

  lemma {:induction false} TextShrinks(s: string)
    ensures CString(s) == s || |CString(s)| < |s|
    decreases |s|
  {
    if s != "" && s[0] != '\0' {
      TextShrinks(s[1..]);
      assert s == [s[0]] + s[1..];
    }
  }

  lemma LeafSettles(t: Type, v: Value, cur: Value, w: Value)
    requires t.TBool? || t.TInt? || t.TString? || t.TEnum?
    requires WellFormed(t) && WellTyped(t, v) && Through(t, v, cur) == Ok(w)
    ensures Lighter(t, w, v, cur)
  {
    match t
    case TBool =>
    case TInt(signed, bits) => IntKept(signed, bits, v.n);
    case TString => TextShrinks(v.s);
    case TEnum(items) =>
      EnumNamePlain(items, v.n);
      EnumRoundTrip(items, v.n);
  }

  lemma OptionalSettles(t: Type, v: Value, cur: Value, w: Value)
    requires t.TOptional? && WellTyped(t, v) && WellTyped(t, cur) && Through(t, v, cur) == Ok(w)
    requires !IsNull(t, v) && w.VSome? && Through(t.elem, v.v, Default(t.elem)) == Ok(w.v) ==> Lighter(t.elem, w.v, v.v, Default(t.elem))
    ensures Lighter(t, w, v, cur)
  {
    NullIff(t, v);
    if IsNull(t, v) {
      assert w == cur;
    } else {
      var inner := Through(t.elem, v.v, Default(t.elem));
      assert inner.Ok? && w == VSome(inner.value);
      NeverBecomesNull(t.elem, v.v, inner.value);
    }
  }

  lemma SetSettles(t: Type, v: Value, cur: Value, w: Value, ds: seq<Value>)
    requires t.TSet? && v.VList? && w.VList? && |ds| == |v.elems| && multiset(w.elems) <= multiset(ds) && (ds == v.elems ==> w == v)
    requires forall i :: 0 <= i < |ds| ==> Lighter(t.elem, ds[i], v.elems[i], Default(t.elem))
    ensures Lighter(t, w, v, cur)
  {
    ListLighter(t.elem, ds, v.elems);
    PartWeighsLess(t.elem, w.elems, ds);
  }

  /** A trip through text leaves a value of any type as it is, or makes it lighter. */
  lemma {:induction false} Settles(t: Type, v: Value, cur: Value, w: Value)
    requires WellFormed(t) && WellTyped(t, v) && WellTyped(t, cur) && Through(t, v, cur) == Ok(w)
    ensures Lighter(t, w, v, cur)
    decreases t, 1
  {
    match t
    case TStruct(_, _) => StructSettles(t, v, cur, w);
    case TOptional(elem) =>
      if !IsNull(t, v) && w.VSome? && Through(elem, v.v, Default(elem)) == Ok(w.v) {
        Settles(elem, v.v, Default(elem), w.v);
      }
      OptionalSettles(t, v, cur, w);
    case TTuple(_) => TupleSettles(t, v, cur, w);
    case TPair(first, second) =>
      PairThrough(t, v, cur, w);
      Settles(first, v.first, cur.first, w.first);
      Settles(second, v.second, cur.second, w.second);
    case TArray(elem, _) =>
      ListThrough(t, v, cur, w);
      ElementsSettle(elem, v.elems, w.elems);
    case TList(elem) =>
      ListThrough(t, v, cur, w);
      ElementsSettle(elem, v.elems, w.elems);
    case TSet(elem, _) =>
      var ds := SetThrough(t, v, cur, w);
      ElementsSettle(elem, v.elems, ds);
      SetSettles(t, v, cur, w, ds);
    case _ => LeafSettles(t, v, cur, w);
  }

  lemma {:induction false} ElementsSettle(elem: Type, vs: seq<Value>, ws: seq<Value>)
    requires WellFormed(elem) && AllTyped(elem, vs) && ElementsReturn(elem, vs, ws)
    ensures forall i :: 0 <= i < |vs| ==> Lighter(elem, ws[i], vs[i], Default(elem))
    ensures BurdenList(elem, ws) <= BurdenList(elem, vs)
    ensures ws != vs ==> BurdenList(elem, ws) < BurdenList(elem, vs)
    decreases elem, 2
  {
    forall i | 0 <= i < |vs| ensures Lighter(elem, ws[i], vs[i], Default(elem)) {
      Settles(elem, vs[i], Default(elem), ws[i]);
    }
    ListLighter(elem, ws, vs);
  }

  lemma {:induction false} StructSettles(t: Type, v: Value, cur: Value, w: Value)
    requires t.TStruct? && WellFormed(t) && WellTyped(t, v) && WellTyped(t, cur) && Through(t, v, cur) == Ok(w)
    ensures Lighter(t, w, v, cur)
    decreases t, 0
  {
    StructThrough(t, v, cur, w);
    forall i: nat | i < Size(t) && Own(t, i) ensures Lighter(SlotAt(t, i).t, PartAt(w, i), PartAt(v, i), PartAt(cur, i)) {
      PartFormed(t, i);
      PartTyped(t, cur, i);
      assert PartEncodes(t, v, i) && SlotReturns(t, v, cur, w, i);
      OwnItem(t, v, i, PartAt(cur, i));
      Settles(SlotAt(t, i).t, PartAt(v, i), PartAt(cur, i), PartAt(w, i));
    }
    PartsLighter(t, w, v, cur);
    if w != v {
      StructLighter(t, v, cur, w);
    }
  }

  lemma StructLighter(t: Type, v: Value, cur: Value, w: Value)
    requires t.TStruct? && WellTyped(t, v) && SlotsReturn(t, v, cur, w) && w != v
    requires Sum(PartWeights(t, w, cur)) <= Sum(PartWeights(t, v, cur))
    requires (exists i :: 0 <= i < Size(t) && Own(t, i) && PartAt(w, i) != PartAt(v, i)) ==>
               Sum(PartWeights(t, w, cur)) < Sum(PartWeights(t, v, cur))
    ensures Burden(t, w, cur) < Burden(t, v, cur)
  {
    if forall i :: 0 <= i < Size(t) && Own(t, i) ==> PartAt(w, i) == PartAt(v, i) {
      HiddenSettle(t, v, cur, w);
    }
    SumBounds(Stales(t, w, cur));
    Outweighs(Size(t), Sum(PartWeights(t, w, cur)), Sum(Stales(t, w, cur)), Sum(PartWeights(t, v, cur)), Sum(Stales(t, v, cur)));
  }

  lemma AllSettled(t: Type, v: Value, cur: Value, w: Value)
    requires t.TStruct? && WellTyped(t, v) && SlotsReturn(t, v, cur, w)
    requires forall i :: 0 <= i < Size(t) && Own(t, i) ==> PartAt(w, i) == PartAt(v, i)
    ensures Sum(Stales(t, w, cur)) == 0
  {
    forall i | 0 <= i < Size(t) ensures Stales(t, w, cur)[i] == 0 {
      StaysSettled(t, v, cur, w, i);
    }
    SumBounds(Stales(t, w, cur));
  }

  /** When no slot of its own changed, the hidden slots have settled, and some of them had not. */
  lemma HiddenSettle(t: Type, v: Value, cur: Value, w: Value)
    requires t.TStruct? && WellTyped(t, v) && SlotsReturn(t, v, cur, w) && w != v
    requires forall i :: 0 <= i < Size(t) && Own(t, i) ==> PartAt(w, i) == PartAt(v, i)
    ensures Sum(Stales(t, w, cur)) == 0 < Sum(Stales(t, v, cur))
  {
    AllSettled(t, v, cur, w);
    var i := Differ(t, v, w);
    WasStale(t, v, cur, w, i);
    assert Stales(t, v, cur)[i] == 1;
    SumBounds(Stales(t, v, cur));
  }

  lemma WasStale(t: Type, v: Value, cur: Value, w: Value, i: nat)
    requires t.TStruct? && i < Size(t) && SlotReturns(t, v, cur, w, i) && !Own(t, i) && PartAt(w, i) != PartAt(v, i)
    ensures Stale(t, v, cur, i)
  {
  }

  lemma Differ(t: Type, v: Value, w: Value) returns (i: nat)
    requires t.TStruct? && WellTyped(t, v) && w.VStruct? && |w.bases| == |t.bases| && |w.fields| == |t.fields| && w != v
    ensures i < Size(t) && PartAt(w, i) != PartAt(v, i)
  {
    if forall i :: 0 <= i < Size(t) ==> PartAt(w, i) == PartAt(v, i) {
      SameParts(t, v, w);
    }
    i :| 0 <= i < Size(t) && PartAt(w, i) != PartAt(v, i);
  }

  lemma StaysSettled(t: Type, v: Value, cur: Value, w: Value, i: nat)
    requires t.TStruct? && i < Size(t) && SlotReturns(t, v, cur, w, i)
    requires forall k :: 0 <= k < Size(t) && Own(t, k) ==> PartAt(w, k) == PartAt(v, k)
    ensures SlotReturns(t, w, cur, w, i)
  {
    HomeIsOwn(t, i);
    assert ItemFor(t, w, i) == ItemFor(t, v, i);
  }

  lemma {:induction false} TupleSettles(t: Type, v: Value, cur: Value, w: Value)
    requires t.TTuple? && WellFormed(t) && WellTyped(t, v) && WellTyped(t, cur) && Through(t, v, cur) == Ok(w)
    ensures Lighter(t, w, v, cur)
    decreases t, 0
  {
    TupleThrough(t, v, cur, w);
    forall i | 0 <= i < |t.elems| ensures Lighter(t.elems[i], w.elems[i], v.elems[i], cur.elems[i]) {
      Settles(t.elems[i], v.elems[i], cur.elems[i], w.elems[i]);
    }
    TupleLighter(t.elems, w.elems, v.elems, cur.elems);
    if w != v {
      assert w.elems != v.elems;
    }
  }

  /** A set that comes back as it was had none of its elements changed. */
  lemma SetUnchanged(t: Type, v: Value, cur: Value)
    requires t.TSet? && WellFormed(t) && WellTyped(t, v) && Through(t, v, cur) == Ok(v)
    ensures ElementsReturn(t.elem, v.elems, v.elems)
  {
    var ds := SetThrough(t, v, cur, v);
    ElementsSettle(t.elem, v.elems, ds);
    PartWeighsLess(t.elem, v.elems, ds);
  }
}
