/**
  Interface hierarchies and the two compile-time programs over them: the flattened list of
  bases and the depth-first interface query.
*/
module Interfaces {

  /** `IService`, or an interface that inherits from the interfaces of its base tuple. */
  datatype Interface = IService | Derived(name: string, bases: seq<Interface>)

  /** `TBaseTypeTuple`. */
  function Bases(t: Interface): seq<Interface> {
    if t.IService? then [] else t.bases
  }

  // ---------------------------------------------------------------- tuple functions

  /** `UniqueTuple`: elements not yet in the result are put in front of it. */
  function Unique<T(==)>(s: seq<T>, res: seq<T>): seq<T>
    decreases |s|
  {
    if s == [] then res else Unique(s[1..], if s[0] in res then res else [s[0]] + res)
  }

  function MakeUnique<T(==)>(s: seq<T>): seq<T> {
    Unique(s, [])
  }

  // ---------------------------------------------------------------- inherited list

  /** `ExpandInterfaceBase` of an interface. */
  function Expand(t: Interface): seq<Interface>
    decreases t, 1
  {
    if t.IService? then [] else MakeUnique(ExpandTuple(t.bases))
  }

  /** `ExpandInterfaceBase` of a base tuple; a tuple of `IService` alone expands to nothing. */
  function ExpandTuple(ts: seq<Interface>): seq<Interface>
    decreases ts, 0
  {
    if ts == [IService] then [] else MakeUnique(ts + ExpandEach(ts, |ts|))
  }

  /** The `TupleCat` of the expansions of the first n elements. */
  function ExpandEach(ts: seq<Interface>, n: nat): seq<Interface>
    requires n <= |ts|
    decreases ts, 0, n
  {
    if n == 0 then [] else ExpandEach(ts, n - 1) + Expand(ts[n - 1])
  }

  // ---------------------------------------------------------------- interface query

  /** `QueryInterface<tuple<H, T...>>::Query`: H itself, then its bases, then the rest. */
  predicate Query(ts: seq<Interface>, x: Interface)
    decreases ts
  {
    ts != [] && (ts[0] == x || (ts[0].Derived? && Query(ts[0].bases, x)) || Query(ts[1..], x))
  }

  // ---------------------------------------------------------------- reference: transitive bases

  ghost predicate IsBase(t: Interface, x: Interface)
    decreases t
  {
    exists i :: 0 <= i < |Bases(t)| && (Bases(t)[i] == x || IsBase(Bases(t)[i], x))
  }

  /** `IService` stands beside other bases somewhere in the hierarchy of t. */
  ghost predicate MixesIService(t: Interface)
    decreases t
  {
    (IService in Bases(t) && Bases(t) != [IService]) ||
    exists i :: 0 <= i < |Bases(t)| && MixesIService(Bases(t)[i])
  }

  ghost predicate NoDuplicates<T>(s: seq<T>) {
    forall i, j :: 0 <= i < j < |s| ==> s[i] != s[j]
  }

  // ---------------------------------------------------------------- proofs

  lemma {:induction false} UniqueHas<T>(s: seq<T>, res: seq<T>, x: T)
    ensures x in Unique(s, res) <==> x in s || x in res
    decreases |s|
  {
    if s != [] {
      UniqueHas(s[1..], if s[0] in res then res else [s[0]] + res, x);
      assert s == [s[0]] + s[1..];
    }
  }

  lemma {:induction false} UniqueIsSet<T>(s: seq<T>, res: seq<T>)
    requires NoDuplicates(res)
    ensures NoDuplicates(Unique(s, res))
    decreases |s|
  {
    if s != [] {
      UniqueIsSet(s[1..], if s[0] in res then res else [s[0]] + res);
    }
  }

  /** Membership in the expansion of a tuple, by the expansions of its elements. */
  lemma {:induction false} ExpandEachHas(ts: seq<Interface>, n: nat, x: Interface)
    requires n <= |ts|
    ensures x in ExpandEach(ts, n) <==> exists i :: 0 <= i < n && x in Expand(ts[i])
    decreases n
  {
    if n > 0 {
      ExpandEachHas(ts, n - 1, x);
    }
  }

  lemma ExpandHas(t: Interface, x: Interface)
    requires t.Derived? && t.bases != [IService]
    ensures x in Expand(t) <==> x in t.bases || exists i :: 0 <= i < |t.bases| && x in Expand(t.bases[i])
  {
    var ts := t.bases;
    ExpandEachHas(ts, |ts|, x);
    UniqueHas(ts + ExpandEach(ts, |ts|), [], x);
    UniqueHas(ExpandTuple(ts), [], x);
  }

  /** The list holds each transitive base other than `IService`; `IService` only where it is mixed in. */
  lemma {:induction false} ListedIffBase(t: Interface, x: Interface)
    ensures x in Expand(t) <==> if x.IService? then MixesIService(t) else IsBase(t, x)
    decreases t
  {
    if t.Derived? {
      var ts := t.bases;
      forall i | 0 <= i < |ts| ensures x in Expand(ts[i]) <==> if x.IService? then MixesIService(ts[i]) else IsBase(ts[i], x) {
        ListedIffBase(ts[i], x);
      }
      if ts == [IService] {
        assert ts[0] == IService && Expand(IService) == [];
        UniqueHas(ExpandTuple(ts), [], x);
      } else {
        ExpandHas(t, x);
        if x in ts {
          var i :| 0 <= i < |ts| && ts[i] == x;
          assert Bases(t)[i] == x;
        }
        if i :| 0 <= i < |ts| && x in Expand(ts[i]) {
          assert Bases(t)[i] == ts[i];
        }
      }
    }
  }

  /** `MakeInheritedIist`: every transitive base other than `IService`, each once. */
  lemma InheritedListIsExact(t: Interface)
    ensures NoDuplicates(Expand(t))
    ensures forall x :: x != IService ==> (x in Expand(t) <==> IsBase(t, x))
    ensures IService in Expand(t) <==> MixesIService(t)
  {
    if t.Derived? {
      UniqueIsSet(ExpandTuple(t.bases), []);
    }
    forall x ensures x in Expand(t) <==> if x.IService? then MixesIService(t) else IsBase(t, x) {
      ListedIffBase(t, x);
    }
  }

  /** x is among the interfaces of the tuple or above one of them. */
  ghost predicate Reaches(ts: seq<Interface>, x: Interface) {
    exists i :: 0 <= i < |ts| && (ts[i] == x || IsBase(ts[i], x))
  }

  lemma ReachesCons(ts: seq<Interface>, x: Interface)
    requires ts != []
    ensures Reaches(ts, x) <==> ts[0] == x || IsBase(ts[0], x) || Reaches(ts[1..], x)
  {
    if Reaches(ts, x) {
      var i :| 0 <= i < |ts| && (ts[i] == x || IsBase(ts[i], x));
      assert i > 0 ==> ts[1..][i - 1] == ts[i];
    }
    if Reaches(ts[1..], x) {
      var i :| 0 <= i < |ts[1..]| && (ts[1..][i] == x || IsBase(ts[1..][i], x));
      assert ts[i + 1] == ts[1..][i];
    }
  }

  lemma BaseIsReached(t: Interface, x: Interface)
    ensures IsBase(t, x) <==> Reaches(Bases(t), x)
  {
    var ts := Bases(t);
    if IsBase(t, x) {
      var i :| 0 <= i < |ts| && (ts[i] == x || IsBase(ts[i], x));
      assert Reaches(ts, x);
    }
    if Reaches(ts, x) {
      var i :| 0 <= i < |ts| && (ts[i] == x || IsBase(ts[i], x));
      assert Bases(t)[i] == x || IsBase(Bases(t)[i], x);
    }
  }

  lemma {:induction false} QueryFinds(ts: seq<Interface>, x: Interface)
    ensures Query(ts, x) <==> Reaches(ts, x)
    decreases ts
  {
    if ts != [] {
      ReachesCons(ts, x);
      if ts[0].Derived? {
        QueryFinds(ts[0].bases, x);
        BaseIsReached(ts[0], x);
      }
      QueryFinds(ts[1..], x);
    }
  }

  /** The query finds exactly the transitive bases; other than for `IService`, those in the list. */
  lemma QueryMatchesList(t: Interface, x: Interface)
    ensures Query(Bases(t), x) <==> IsBase(t, x)
    ensures x != IService ==> (Query(Bases(t), x) <==> x in Expand(t))
  {
    QueryFinds(Bases(t), x);
    BaseIsReached(t, x);
    ListedIffBase(t, x);
  }
}
