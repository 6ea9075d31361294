/** The bounded service pool: a table swept in address order, and holders that release on destruction. */
module Pool {
  import opened Basics

  /** Services are identified by their addresses. */
  datatype Entry = Entry(service: int, busy: bool)

  /** What one sweep finds out about a service: no `ICheckable`, or its answer. */
  datatype Health = Uncheckable | Good | Bad

  type Checker = int -> Health

  datatype Outcome = Reused(service: int) | Created(service: int) | LimitReached | FactoryFailed

  // ---------------------------------------------------------------- specification

  predicate Sorted(t: seq<Entry>) {
    forall i, j :: 0 <= i < j < |t| ==> t[i].service < t[j].service
  }

  predicate Usable(e: Entry, check: Checker) {
    !e.busy && check(e.service) != Bad
  }

  /** Index of the first idle healthy entry, or the size of the table. */
  function FirstUsable(t: seq<Entry>, check: Checker): (k: nat)
    ensures k <= |t| && (forall i :: 0 <= i < k ==> !Usable(t[i], check)) && (k < |t| ==> Usable(t[k], check))
  {
    if t == [] || Usable(t[0], check) then 0 else 1 + FirstUsable(t[1..], check)
  }

  function Healthy(t: seq<Entry>, check: Checker): seq<Entry> {
    if t == [] then []
    else (if check(t[0].service) == Bad then [] else [t[0]]) + Healthy(t[1..], check)
  }

  /** The table with one more entry, in its place. */
  function Insert(t: seq<Entry>, e: Entry): seq<Entry> {
    if t == [] || e.service < t[0].service then [e] + t
    else if e.service == t[0].service then t
    else [t[0]] + Insert(t[1..], e)
  }

  function SetBusy(t: seq<Entry>, service: int, busy: bool): seq<Entry> {
    if t == [] then []
    else [if t[0].service == service then Entry(service, busy) else t[0]] + SetBusy(t[1..], service, busy)
  }

  /** The sweep, then the limit, then the factory. */
  function GetSpec(t: seq<Entry>, limit: nat, check: Checker, made: Option<int>): (seq<Entry>, Outcome) {
    var k := FirstUsable(t, check);
    var swept := Healthy(t[..k], check);
    if k < |t| then (SetBusy(swept + t[k..], t[k].service, true), Reused(t[k].service))
    else if |swept| >= limit then (swept, LimitReached)
    else if made.None? then (swept, FactoryFailed)
    else (SetBusy(Insert(swept, Entry(made.value, false)), made.value, true), Created(made.value))
  }

  // ---------------------------------------------------------------- the object

  class ServicePool {
    const limit: nat
    var services: seq<Entry>

    constructor (limit: nat)
      ensures this.limit == limit && services == []
    {
      this.limit := limit;
      services := [];
    }

    /** The sweep erases unhealthy entries as it goes and stops at the first idle healthy one. */
    method GetService(check: Checker, made: Option<int>) returns (outcome: Outcome)
      requires Sorted(services)
      modifies this`services
      ensures (services, outcome) == GetSpec(old(services), limit, check, made)
    {
      ghost var table := services;
      ghost var seen := 0;
      var i := 0;
      while i < |services|
        invariant 0 <= i <= |services| && 0 <= seen <= |table|
        invariant services[..i] == Healthy(table[..seen], check)
        invariant services[i..] == table[seen..]
        invariant forall j :: 0 <= j < seen ==> !Usable(table[j], check)
        decreases |services| - i
      {
        assert services[i] == services[i..][0] == table[seen];
        HealthyAppend(table[..seen], table[seen], check);
        assert table[..seen] + [table[seen]] == table[..seen + 1];
        if check(services[i].service) == Bad {
          assert (services[..i] + services[i + 1..])[..i] == services[..i];
          services := services[..i] + services[i + 1..];
          seen := seen + 1;
          continue;
        }
        if !services[i].busy {
          var service := services[i].service;
          ReuseIs(table, services, seen, i, limit, check, made);
          services := services[i := Entry(service, true)];
          return Reused(service);
        }
        i := i + 1;
        seen := seen + 1;
      }
      assert table[..seen] == table && services[..i] == services;
      FirstIs(table, check, seen);
      if |services| >= limit {
        return LimitReached;
      }
      if made.None? {
        return FactoryFailed;
      }
      services := Insert(services, Entry(made.value, false));
      services := SetBusy(services, made.value, true);
      return Created(made.value);
    }

    /**
      `~Holder`: the one entry of the service, if it is still in the table, becomes idle; every other
      entry stays as it is. Without such an entry nothing changes, and the caller logs an error.
    */
    method Release(service: int) returns (found: bool)
      requires Sorted(services)
      modifies this`services
      ensures found <==> Has(old(services), service)
      ensures Sorted(services) && |services| == |old(services)|
      ensures forall i :: 0 <= i < |services| ==>
                services[i].service == old(services)[i].service &&
                services[i].busy == (old(services)[i].busy && services[i].service != service)
      ensures services == SetBusy(old(services), service, false)
    {
      var i := 0;
      while i < |services| && services[i].service != service
        invariant 0 <= i <= |services| && services == old(services)
        invariant forall j :: 0 <= j < i ==> services[j].service != service
      {
        i := i + 1;
      }
      found := i < |services|;
      if found {
        UpdateIsSetBusy(services, i, false);
        services := services[i := Entry(service, false)];
      } else {
        SetBusyAbsent(services, service, false);
      }
    }

    /** The constructor's checks: a limit of 0 and a null factory throw. */
    static method Make(limit: nat, hasFactory: bool) returns (pool: ServicePool?)
      ensures pool == null <==> limit == 0 || !hasFactory
      ensures pool != null ==> fresh(pool) && pool.limit == limit && pool.services == []
    {
      if limit == 0 || !hasFactory {
        return null;
      }
      pool := new ServicePool(limit);
    }
  }

  /** What the sweep has left, with the usable entry it stopped at made busy, is what the specification says. */
  lemma ReuseIs(table: seq<Entry>, left: seq<Entry>, seen: nat, i: nat, limit: nat, check: Checker, made: Option<int>)
    requires Sorted(table) && seen < |table| && i < |left|
    requires left[..i] == Healthy(table[..seen], check) && left[i..] == table[seen..]
    requires (forall j :: 0 <= j < seen ==> !Usable(table[j], check)) && Usable(left[i], check)
    ensures (left[i := Entry(left[i].service, true)], Reused(left[i].service)) == GetSpec(table, limit, check, made)
  {
    assert left[i] == left[i..][0] == table[seen];
    FirstIs(table, check, seen);
    LeftSorted(table, seen, check);
    assert left == left[..i] + left[i..];
    UpdateIsSetBusy(left, i, true);
  }

  lemma {:induction false} SetBusyAbsent(t: seq<Entry>, service: int, busy: bool)
    requires forall i :: 0 <= i < |t| ==> t[i].service != service
    ensures SetBusy(t, service, busy) == t
  {
    if t != [] {
      SetBusyAbsent(t[1..], service, busy);
    }
  }

  lemma {:induction false} HealthyAppend(t: seq<Entry>, e: Entry, check: Checker)
    ensures Healthy(t + [e], check) == Healthy(t, check) + (if check(e.service) == Bad then [] else [e])
  {
    var last := if check(e.service) == Bad then [] else [e];
    if t == [] {
      assert Healthy([e], check) == last + Healthy([], check);
    } else {
      var first := if check(t[0].service) == Bad then [] else [t[0]];
      assert (t + [e])[1..] == t[1..] + [e] && (t + [e])[0] == t[0];
      HealthyAppend(t[1..], e, check);
      Associate(first, Healthy(t[1..], check), last);
    }
  }

  lemma FirstIs(t: seq<Entry>, check: Checker, k: nat)
    requires k <= |t| && (forall j :: 0 <= j < k ==> !Usable(t[j], check)) && (k < |t| ==> Usable(t[k], check))
    ensures FirstUsable(t, check) == k
  {
  }

  // ---------------------------------------------------------------- what the sweep does

  predicate Has(t: seq<Entry>, service: int) {
    exists i :: 0 <= i < |t| && t[i].service == service
  }

  lemma {:induction false} HealthyHas(t: seq<Entry>, check: Checker, e: Entry)
    ensures e in Healthy(t, check) <==> e in t && check(e.service) != Bad
  {
    if t != [] {
      HealthyHas(t[1..], check, e);
      assert t == [t[0]] + t[1..];
    }
  }

  lemma {:induction false} HealthySize(t: seq<Entry>, check: Checker)
    ensures |Healthy(t, check)| <= |t|
    ensures |Healthy(t, check)| == |t| ==> Healthy(t, check) == t
  {
    if t != [] {
      HealthySize(t[1..], check);
      assert t == [t[0]] + t[1..];
    }
  }

  lemma {:induction false} HealthySorted(t: seq<Entry>, check: Checker)
    requires Sorted(t)
    ensures Sorted(Healthy(t, check))
  {
    if t != [] {
      HealthySorted(t[1..], check);
      var rest := Healthy(t[1..], check);
      forall j | 0 <= j < |rest| ensures t[0].service < rest[j].service {
        HealthyHas(t[1..], check, rest[j]);
        var m :| 0 <= m < |t[1..]| && t[1..][m] == rest[j];
        assert t[m + 1] == rest[j];
      }
    }
  }

  /**
    `GetService` reports the limit exactly when the table is full and every entry of it is busy
    and not found unhealthy; the table is then unchanged.
  */
  lemma LimitReachedIff(t: seq<Entry>, limit: nat, check: Checker, made: Option<int>)
    requires |t| <= limit
    ensures GetSpec(t, limit, check, made).1 == LimitReached <==>
            |t| == limit && forall i :: 0 <= i < |t| ==> t[i].busy && check(t[i].service) != Bad
    ensures GetSpec(t, limit, check, made).1 == LimitReached ==> GetSpec(t, limit, check, made).0 == t
  {
    var k := FirstUsable(t, check);
    assert k == |t| ==> t[..k] == t;
    HealthySize(t, check);
    if forall i :: 0 <= i < |t| ==> t[i].busy && check(t[i].service) != Bad {
      HealthyAll(t, check);
    } else if k == |t| && |Healthy(t, check)| == |t| {
      forall i | 0 <= i < |t| ensures t[i].busy && check(t[i].service) != Bad {
        HealthyHas(t, check, t[i]);
      }
    }
  }

  lemma {:induction false} HealthyAll(t: seq<Entry>, check: Checker)
    requires forall i :: 0 <= i < |t| ==> check(t[i].service) != Bad
    ensures Healthy(t, check) == t
  {
    if t != [] {
      HealthyAll(t[1..], check);
    }
  }

  /** The entries that are not found unhealthy. */
  function Good(t: seq<Entry>, check: Checker): set<Entry> {
    set e | e in t && check(e.service) != Bad
  }

  lemma GoodCons(e: Entry, rest: seq<Entry>, check: Checker)
    requires e !in rest
    ensures |Good([e] + rest, check)| == |Good(rest, check)| + (if check(e.service) == Bad then 0 else 1)
  {
    var first := if check(e.service) == Bad then {} else {e};
    assert Good([e] + rest, check) == first + Good(rest, check);
    assert first !! Good(rest, check);
  }

  lemma FirstOnce(t: seq<Entry>)
    requires Sorted(t) && t != []
    ensures t[0] !in t[1..]
  {
    assert forall i :: 0 <= i < |t[1..]| ==> t[1..][i] == t[i + 1] && t[0].service < t[i + 1].service;
  }

  lemma {:induction false} HealthyCount(t: seq<Entry>, check: Checker)
    requires Sorted(t)
    ensures |Healthy(t, check)| == |Good(t, check)|
  {
    if t != [] {
      FirstOnce(t);
      GoodCons(t[0], t[1..], check);
      HealthyCount(t[1..], check);
      assert [t[0]] + t[1..] == t;
    }
  }

  /** No entry is both idle and not found unhealthy. */
  predicate NoneIdle(t: seq<Entry>, check: Checker, k: nat)
    requires k <= |t|
  {
    forall i :: 0 <= i < k ==> t[i].busy || check(t[i].service) == Bad
  }

  /**
    What `GetService` gives: the first entry that is idle and healthy; without one, and with fewer
    healthy entries than the limit, what the factory makes, or its failure.
  */
  lemma OutcomeExact(t: seq<Entry>, limit: nat, check: Checker, made: Option<int>, service: int)
    requires Sorted(t)
    ensures GetSpec(t, limit, check, made).1 == Reused(service) <==>
            exists k :: 0 <= k < |t| && !t[k].busy && check(t[k].service) != Bad && t[k].service == service && NoneIdle(t, check, k)
    ensures GetSpec(t, limit, check, made).1 == Created(service) <==>
            NoneIdle(t, check, |t|) && |Good(t, check)| < limit && made == Some(service)
    ensures GetSpec(t, limit, check, made).1 == FactoryFailed <==>
            NoneIdle(t, check, |t|) && |Good(t, check)| < limit && made == None
    ensures GetSpec(t, limit, check, made).1 == LimitReached <==>
            NoneIdle(t, check, |t|) && |Good(t, check)| >= limit
  {
    HealthyCount(t, check);
    var k := FirstUsable(t, check);
    assert k == |t| ==> t[..k] == t;
    if k < |t| {
      assert NoneIdle(t, check, k) && Usable(t[k], check);
    }
  }

  /** Of the entries swept over, exactly the unhealthy ones before the first usable entry disappear. */
  lemma SweepRemovesExactly(t: seq<Entry>, limit: nat, check: Checker, made: Option<int>, i: nat)
    requires Sorted(t) && i < |t| && (made.Some? ==> !Has(t, made.value))
    ensures Has(GetSpec(t, limit, check, made).0, t[i].service) <==>
            check(t[i].service) != Bad || i >= FirstUsable(t, check)
  {
    var k, service := FirstUsable(t, check), t[i].service;
    var swept := Healthy(t[..k], check);
    SweptHas(t, k, check, i);
    GetHas(t, limit, check, made, service);
    if k < |t| {
      RestHas(t, k, i);
    } else if made.Some? {
      assert service != made.value;
    }
  }

  /** Which services the table has after a get. */
  lemma GetHas(t: seq<Entry>, limit: nat, check: Checker, made: Option<int>, service: int)
    requires Sorted(t)
    ensures var k, got := FirstUsable(t, check), GetSpec(t, limit, check, made);
            Has(got.0, service) <==>
            Has(Healthy(t[..k], check), service) || (k < |t| && Has(t[k..], service)) ||
            (got.1.Created? && service == got.1.service)
  {
    var k := FirstUsable(t, check);
    var swept := Healthy(t[..k], check);
    if k < |t| {
      HasJoin(swept, t[k..], service);
      SetBusyHas(swept + t[k..], t[k].service, true, service);
    } else if made.Some? {
      CreatedHas(swept, made.value, service);
    }
  }

  lemma CreatedHas(swept: seq<Entry>, made: int, service: int)
    ensures Has(SetBusy(Insert(swept, Entry(made, false)), made, true), service) <==> Has(swept, service) || service == made
  {
    InsertHas(swept, Entry(made, false), service);
    SetBusyHas(Insert(swept, Entry(made, false)), made, true, service);
  }

  /** Services are unique in a table, so marking one changes one entry. */
  lemma UpdateIsSetBusy(t: seq<Entry>, i: nat, busy: bool)
    requires Sorted(t) && i < |t|
    ensures SetBusy(t, t[i].service, busy) == t[i := Entry(t[i].service, busy)]
  {
    SetBusyShape(t, t[i].service, busy);
    forall j | 0 <= j < |t| && j != i ensures t[j].service != t[i].service {
      assert j < i || i < j;
    }
  }

  lemma LeftSorted(t: seq<Entry>, k: nat, check: Checker)
    requires Sorted(t) && k <= |t|
    ensures Sorted(Healthy(t[..k], check) + t[k..])
  {
    var swept := Healthy(t[..k], check);
    HealthySorted(t[..k], check);
    forall i, j | 0 <= i < |swept| && k <= j < |t| ensures swept[i].service < t[j].service {
      HealthyHas(t[..k], check, swept[i]);
      var m :| 0 <= m < |t[..k]| && t[..k][m] == swept[i];
      assert t[m] == swept[i];
    }
  }

  lemma RestHas(t: seq<Entry>, k: nat, i: nat)
    requires Sorted(t) && i < |t| && k <= |t|
    ensures Has(t[k..], t[i].service) <==> k <= i
  {
    if k <= i {
      assert t[k..][i - k].service == t[i].service;
    }
    if Has(t[k..], t[i].service) {
      var m :| 0 <= m < |t[k..]| && t[k..][m].service == t[i].service;
      assert t[k + m].service == t[i].service;
    }
  }

  lemma SweptHas(t: seq<Entry>, k: nat, check: Checker, i: nat)
    requires Sorted(t) && i < |t| && k <= |t|
    ensures Has(Healthy(t[..k], check), t[i].service) <==> i < k && check(t[i].service) != Bad
  {
    var swept := Healthy(t[..k], check);
    if Has(swept, t[i].service) {
      var j :| 0 <= j < |swept| && swept[j].service == t[i].service;
      HealthyHas(t[..k], check, swept[j]);
      var m :| 0 <= m < |t[..k]| && t[..k][m] == swept[j];
      assert t[m].service == t[i].service;
    }
    if i < k && check(t[i].service) != Bad {
      assert t[..k][i] == t[i];
      HealthyHas(t[..k], check, t[i]);
      var j :| 0 <= j < |swept| && swept[j] == t[i];
      assert swept[j].service == t[i].service;
    }
  }

  lemma HasJoin(a: seq<Entry>, b: seq<Entry>, service: int)
    ensures Has(a + b, service) <==> Has(a, service) || Has(b, service)
  {
    if Has(a, service) {
      var i :| 0 <= i < |a| && a[i].service == service;
      assert (a + b)[i].service == service;
    }
    if Has(b, service) {
      var i :| 0 <= i < |b| && b[i].service == service;
      assert (a + b)[|a| + i].service == service;
    }
    if Has(a + b, service) {
      var i :| 0 <= i < |a + b| && (a + b)[i].service == service;
      assert i < |a| ==> a[i].service == service;
      assert i >= |a| ==> b[i - |a|].service == service;
    }
  }

  lemma {:induction false} InsertHas(t: seq<Entry>, e: Entry, service: int)
    ensures Has(Insert(t, e), service) <==> Has(t, service) || service == e.service
  {
    if t == [] || e.service < t[0].service {
      HasJoin([e], t, service);
      assert [e][0] == e;
    } else if e.service == t[0].service {
    } else {
      assert t == [t[0]] + t[1..];
      HasJoin([t[0]], t[1..], service);
      HasJoin([t[0]], Insert(t[1..], e), service);
      InsertHas(t[1..], e, service);
    }
  }

  lemma {:induction false} SetBusyShape(t: seq<Entry>, service: int, busy: bool)
    ensures |SetBusy(t, service, busy)| == |t|
    ensures forall i :: 0 <= i < |t| ==>
              SetBusy(t, service, busy)[i] == if t[i].service == service then Entry(service, busy) else t[i]
  {
    if t != [] {
      SetBusyShape(t[1..], service, busy);
    }
  }

  lemma SetBusyHas(t: seq<Entry>, changed: int, busy: bool, service: int)
    ensures Has(SetBusy(t, changed, busy), service) <==> Has(t, service)
  {
    SetBusyShape(t, changed, busy);
    var t' := SetBusy(t, changed, busy);
    if Has(t, service) {
      var i :| 0 <= i < |t| && t[i].service == service;
      assert t'[i].service == service;
    }
    if Has(t', service) {
      var i :| 0 <= i < |t'| && t'[i].service == service;
      assert t[i].service == service;
    }
  }

  // ---------------------------------------------------------------- every run

  /** The pool and the holders alive, each with the service it holds. */
  datatype State = State(limit: nat, table: seq<Entry>, holders: map<int, int>)

  datatype Event = Get(check: Checker, made: Option<int>, holder: int) | Drop(holder: int)

  predicate Held(holders: map<int, int>, service: int) {
    exists h :: h in holders && holders[h] == service
  }

  /** The factory returns a service that is neither in the table nor held. */
  predicate Enabled(s: State, e: Event) {
    match e
    case Get(_, made, holder) =>
      holder !in s.holders && (made.Some? ==> !Has(s.table, made.value) && !Held(s.holders, made.value))
    case Drop(holder) => holder in s.holders
  }

  function Apply(s: State, e: Event): State
    requires Enabled(s, e)
  {
    match e
    case Get(check, made, holder) =>
      var (t, outcome) := GetSpec(s.table, s.limit, check, made);
      State(s.limit, t,
            match outcome
            case Reused(service) => s.holders[holder := service]
            case Created(service) => s.holders[holder := service]
            case _ => s.holders)
    case Drop(holder) => State(s.limit, SetBusy(s.table, s.holders[holder], false), s.holders - {holder})
  }

  /**
    No two holders share a service, an entry is busy exactly when some holder has it, and the
    table is within the limit.
  */
  ghost predicate Inv(s: State) {
    Sorted(s.table) && |s.table| <= s.limit &&
    Injective(s.holders) && Marked(s.table, s.holders)
  }

  /** The part of the invariant that relates a table to the holders. */
  ghost predicate Marked(t: seq<Entry>, holders: map<int, int>) {
    forall e :: e in t ==> (e.busy <==> Held(holders, e.service))
  }

  lemma {:induction false} InsertSorted(t: seq<Entry>, e: Entry)
    requires Sorted(t) && !Has(t, e.service)
    ensures Sorted(Insert(t, e)) && |Insert(t, e)| == |t| + 1
    ensures forall x :: x in Insert(t, e) <==> x in t || x == e
  {
    if t != [] && e.service > t[0].service {
      assert t == [t[0]] + t[1..];
      HasJoin([t[0]], t[1..], e.service);
      InsertSorted(t[1..], e);
      var rest := Insert(t[1..], e);
      assert t == [t[0]] + t[1..];
      forall j | 0 <= j < |rest| ensures t[0].service < rest[j].service {
        assert rest[j] in rest;
        if rest[j] in t[1..] {
          var m :| 0 <= m < |t[1..]| && t[1..][m] == rest[j];
          assert t[m + 1] == rest[j];
        }
      }
    } else if t != [] {
      assert t[0].service != e.service by { assert t[0].service == e.service ==> Has(t, e.service); }
    }
  }

  /** A holder takes an idle service of the table: its entry, and no other, becomes busy. */
  lemma Lend(t: seq<Entry>, holders: map<int, int>, holder: int, service: int)
    requires Sorted(t) && Marked(t, holders) && holder !in holders
    ensures var t' := SetBusy(t, service, true);
            Sorted(t') && |t'| == |t| && Marked(t', holders[holder := service])
  {
    SetBusyShape(t, service, true);
    var t', m := SetBusy(t, service, true), holders[holder := service];
    forall i | 0 <= i < |t'| ensures t'[i].busy <==> Held(m, t'[i].service) {
      assert t[i] in t;
      HeldAfterLend(holders, holder, service, t[i].service);
    }
  }

  lemma HeldAfterLend(holders: map<int, int>, holder: int, service: int, x: int)
    requires holder !in holders
    ensures Held(holders[holder := service], x) <==> Held(holders, x) || x == service
  {
    var m := holders[holder := service];
    assert m[holder] == service;
    if Held(holders, x) {
      var h :| h in holders && holders[h] == x;
      assert m[h] == x;
    }
  }

  predicate Injective(holders: map<int, int>) {
    forall h, g :: h in holders && g in holders && holders[h] == holders[g] ==> h == g
  }

  lemma HeldAfterDrop(holders: map<int, int>, holder: int, x: int)
    requires holder in holders && Injective(holders)
    ensures Held(holders - {holder}, x) <==> Held(holders, x) && x != holders[holder]
  {
    var m := holders - {holder};
    if Held(holders, x) {
      var h :| h in holders && holders[h] == x;
      assert x != holders[holder] ==> h in m && m[h] == x;
    }
  }

  /** A holder dies: its entry becomes idle; the entries of other holders stay busy. */
  lemma GiveBack(t: seq<Entry>, holders: map<int, int>, holder: int)
    requires Sorted(t) && Marked(t, holders) && holder in holders && Injective(holders)
    ensures var t' := SetBusy(t, holders[holder], false);
            Sorted(t') && |t'| == |t| && Marked(t', holders - {holder})
  {
    var service := holders[holder];
    SetBusyShape(t, service, false);
    var t', m := SetBusy(t, service, false), holders - {holder};
    forall i | 0 <= i < |t'| ensures t'[i].busy <==> Held(m, t'[i].service) {
      assert t[i] in t;
      HeldAfterDrop(holders, holder, t[i].service);
    }
  }

  lemma InjectiveAdd(holders: map<int, int>, holder: int, service: int)
    requires Injective(holders) && holder !in holders && !Held(holders, service)
    ensures Injective(holders[holder := service])
  {
    var m := holders[holder := service];
    forall h, g | h in m && g in m && m[h] == m[g] ensures h == g {
      assert h in holders ==> Held(holders, holders[h]);
      assert g in holders ==> Held(holders, holders[g]);
    }
  }

  lemma InvReuse(s: State, check: Checker, made: Option<int>, holder: int)
    requires Inv(s) && Enabled(s, Get(check, made, holder)) && FirstUsable(s.table, check) < |s.table|
    ensures Inv(Apply(s, Get(check, made, holder)))
  {
    var t, k := s.table, FirstUsable(s.table, check);
    LeftOver(t, k, check, s.holders);
    assert t[k] in t;
    LendFree(Healthy(t[..k], check) + t[k..], s.holders, holder, t[k].service);
  }

  lemma LendFree(t: seq<Entry>, holders: map<int, int>, holder: int, service: int)
    requires Sorted(t) && Marked(t, holders) && Injective(holders) && holder !in holders && !Held(holders, service)
    ensures var t', m := SetBusy(t, service, true), holders[holder := service];
            Sorted(t') && |t'| == |t| && Marked(t', m) && Injective(m)
  {
    Lend(t, holders, holder, service);
    InjectiveAdd(holders, holder, service);
  }

  lemma InvCreate(s: State, check: Checker, made: Option<int>, holder: int)
    requires Inv(s) && Enabled(s, Get(check, made, holder)) && FirstUsable(s.table, check) == |s.table|
    ensures Inv(Apply(s, Get(check, made, holder)))
  {
    var t, k := s.table, |s.table|;
    LeftOver(t, k, check, s.holders);
    assert t[..k] == t && Healthy(t, check) + t[k..] == Healthy(t, check);
    if made.Some? {
      LendNew(Healthy(t, check), s.holders, holder, t, check, made.value);
    }
  }

  lemma LendNew(swept: seq<Entry>, holders: map<int, int>, holder: int, t: seq<Entry>, check: Checker, made: int)
    requires swept == Healthy(t, check) && !Has(t, made) && Sorted(swept) && Marked(swept, holders)
    requires holder !in holders && Injective(holders) && !Held(holders, made)
    ensures var t' := SetBusy(Insert(swept, Entry(made, false)), made, true);
            Sorted(t') && |t'| == |swept| + 1 && Marked(t', holders[holder := made]) && Injective(holders[holder := made])
  {
    SweptFrom(t, check, made);
    InsertSorted(swept, Entry(made, false));
    Lend(Insert(swept, Entry(made, false)), holders, holder, made);
    InjectiveAdd(holders, holder, made);
  }

  /** The table without the unhealthy entries of its first k is as good as before. */
  lemma LeftOver(t: seq<Entry>, k: nat, check: Checker, holders: map<int, int>)
    requires Sorted(t) && k <= |t| && Marked(t, holders)
    ensures var left := Healthy(t[..k], check) + t[k..];
            Sorted(left) && |left| <= |t| && Marked(left, holders)
  {
    LeftSorted(t, k, check);
    HealthySize(t[..k], check);
    var swept := Healthy(t[..k], check);
    forall e | e in swept + t[k..] ensures e.busy <==> Held(holders, e.service) {
      HealthyHas(t[..k], check, e);
      assert e in t;
    }
  }

  lemma SweptFrom(t: seq<Entry>, check: Checker, service: int)
    ensures Has(Healthy(t, check), service) ==> Has(t, service)
  {
    var swept := Healthy(t, check);
    if Has(swept, service) {
      var j :| 0 <= j < |swept| && swept[j].service == service;
      HealthyHas(t, check, swept[j]);
      var m :| 0 <= m < |t| && t[m] == swept[j];
    }
  }

  lemma InvStep(s: State, e: Event)
    requires Inv(s) && Enabled(s, e)
    ensures Inv(Apply(s, e))
  {
    match e
    case Get(check, made, holder) =>
      if FirstUsable(s.table, check) < |s.table| {
        InvReuse(s, check, made, holder);
      } else {
        InvCreate(s, check, made, holder);
      }
    case Drop(holder) => GiveBack(s.table, s.holders, holder);
  }

  ghost predicate IsRun(states: seq<State>, events: seq<Event>) {
    |states| == |events| + 1 && states[0].table == [] && states[0].holders == map[] &&
    forall i :: 0 <= i < |events| ==> Enabled(states[i], events[i]) && states[i + 1] == Apply(states[i], events[i])
  }

  /** The invariant holds in every state of every run of gets, releases and health failures. */
  lemma {:induction false} PoolIsSafe(states: seq<State>, events: seq<Event>, n: nat)
    requires IsRun(states, events) && n < |states|
    ensures Inv(states[n])
  {
    if n > 0 {
      PoolIsSafe(states, events, n - 1);
      InvStep(states[n - 1], events[n - 1]);
    }
  }

  /**
    A release keeps every entry of another live holder as it is, busy, adds no entry, and leaves
    its own entry, if that is still in the table, idle.
  */
  lemma ReleaseFreesOnlyItsOwn(states: seq<State>, events: seq<Event>, n: nat, e: Entry)
    requires IsRun(states, events) && n < |events| && events[n].Drop?
    ensures var own := states[n].holders[events[n].holder];
            e in states[n + 1].table <==>
            if e.service == own then !e.busy && Has(states[n].table, own) else e in states[n].table
    ensures Held(states[n + 1].holders, e.service) && e in states[n].table ==> e.busy && e in states[n + 1].table
  {
    var s, holder := states[n], events[n].holder;
    var own := s.holders[holder];
    PoolIsSafe(states, events, n);
    SetBusyEntries(s.table, own, false, e);
    HeldAfterDrop(s.holders, holder, e.service);
    assert e in s.table ==> (e.busy <==> Held(s.holders, e.service));
  }

  lemma {:induction false} SetBusyEntries(t: seq<Entry>, service: int, busy: bool, e: Entry)
    ensures e in SetBusy(t, service, busy) <==> if e.service == service then e.busy == busy && Has(t, service) else e in t
  {
    if t != [] {
      SetBusyEntries(t[1..], service, busy, e);
      HasJoin([t[0]], t[1..], service);
      assert [t[0]] + t[1..] == t;
    }
  }
}
