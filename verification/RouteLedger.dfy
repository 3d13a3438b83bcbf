/** routing/ownership.go and ApplyRoutesOwned: the ledger of routes this client created. */
module RouteLedger {

  import opened Bytes

  datatype Destination = Destination(network: string, bits: nat)

  datatype Route = Route(destination: Destination, gateway: string, iface: int)

  type Table = map<Destination, Route>

  // ---- The host ------------------------------------------------------------------

  /** A change this client made to the host table, and the table it was made to. */
  datatype Change = Added(route: Route, before: Table) | Removed(route: Route, before: Table)

  /** An exclusive add needs a free destination; a removal takes away exactly the given route. */
  predicate Lawful(c: Change) {
    match c
    case Added(r, before) => r.destination !in before
    case Removed(r, before) => r.destination in before && before[r.destination] == r
  }

  datatype AddResult = AddOk | AlreadyExists | AddFailed

  datatype LookupResult = Current(route: Option<Route>) | LookupFailed

  /**
   * The kernel's routing table.  Any call may fail.  If the table is shared, an administrator may
   * rewrite it before every call; `log` records this client's own changes.
   */
  class Host {
    var table: Table
    ghost var log: seq<Change>
    const shared: bool

    ghost predicate LogLawful() reads this {
      forall k :: 0 <= k < |log| ==> Lawful(log[k])
    }

    method AdministratorEdits()
      modifies this`table
      ensures !shared ==> table == old(table)
    {
      if shared {
        table := *;
      }
    }

    method Add(r: Route) returns (res: AddResult)
      requires LogLawful()
      modifies this
      ensures LogLawful()
      ensures res == AddOk ==> |log| == |old(log)| + 1 && log[..|old(log)|] == old(log) && log[|old(log)|].Added?
                               && log[|old(log)|].route == r
      ensures res != AddOk ==> log == old(log)
      ensures !shared ==> table == (if res == AddOk then old(table)[r.destination := r] else old(table))
      ensures !shared ==> (res == AddOk ==> r.destination !in old(table))
                          && (res == AlreadyExists ==> r.destination in old(table))
    {
      AdministratorEdits();
      if * {
        return AddFailed;
      }
      if r.destination in table {
        return AlreadyExists;
      }
      log := log + [Added(r, table)];
      table := table[r.destination := r];
      return AddOk;
    }

    method Lookup(destination: Destination) returns (res: LookupResult)
      modifies this`table
      ensures !shared ==> table == old(table)
      ensures !shared && res.Current? ==>
                res.route == if destination in table then Some(table[destination]) else None
    {
      AdministratorEdits();
      if * {
        return LookupFailed;
      }
      return Current(if destination in table then Some(table[destination]) else None);
    }

    method Remove(r: Route) returns (ok: bool)
      requires LogLawful()
      modifies this
      ensures LogLawful()
      ensures ok ==> |log| == |old(log)| + 1 && log[..|old(log)|] == old(log) && log[|old(log)|].Removed?
                     && log[|old(log)|].route == r
      ensures !ok ==> log == old(log)
      ensures !shared ==> table == if ok then old(table) - {r.destination} else old(table)
      ensures !shared && ok ==> r.destination in old(table) && old(table)[r.destination] == r
    {
      AdministratorEdits();
      if * {
        return false;
      }
      if r.destination !in table || table[r.destination] != r {
        return false;
      }
      log := log + [Removed(r, table)];
      table := table - {r.destination};
      return true;
    }
  }

  // ---- What the ledger does to a table nobody else edits ---------------------------

  /** Which of `ops`, tried in order, get created. */
  function Created(t: Table, ops: seq<Route>): (r: seq<Route>)
    ensures |r| <= |ops|
  {
    if ops == [] then []
    else
      var n := |ops| - 1;
      var before := Created(t, ops[..n]);
      if ops[n].destination in With(t, before) then before else before + [ops[n]]
  }

  function With(t: Table, routes: seq<Route>): Table {
    if routes == [] then t
    else
      var n := |routes| - 1;
      With(t, routes[..n])[routes[n].destination := routes[n]]
  }

  /** The table after Cleanup: routes still identical to an owned one are gone. */
  function Without(t: Table, routes: seq<Route>): Table {
    if routes == [] then t
    else
      var n := |routes| - 1;
      var before := Without(t, routes[..n]);
      var r := routes[n];
      if r.destination in before && before[r.destination] == r then before - {r.destination} else before
  }

  predicate Distinct(routes: seq<Route>) {
    forall i, j :: 0 <= i < j < |routes| ==> routes[i].destination != routes[j].destination
  }

  ghost predicate NewTo(t: Table, routes: seq<Route>) {
    forall i :: 0 <= i < |routes| ==> routes[i].destination !in t
  }

  lemma {:induction false} WithDomain(t: Table, routes: seq<Route>, d: Destination)
    ensures d in With(t, routes) <==> d in t || exists i :: 0 <= i < |routes| && routes[i].destination == d
  {
    if routes != [] {
      var n := |routes| - 1;
      WithDomain(t, routes[..n], d);
      if exists i :: 0 <= i < |routes| && routes[i].destination == d {
        var i :| 0 <= i < |routes| && routes[i].destination == d;
        assert i < n ==> routes[..n][i].destination == d;
      }
    }
  }

  /** Distinct, absent from `t` and among `ops`. */
  ghost predicate FreshPart(t: Table, routes: seq<Route>, ops: seq<Route>) {
    Distinct(routes) && NewTo(t, routes) && forall i :: 0 <= i < |routes| ==> routes[i] in ops
  }

  lemma FreshNext(t: Table, routes: seq<Route>, ops: seq<Route>, n: nat)
    requires n + 1 == |ops| && FreshPart(t, routes, ops[..n])
    ensures FreshPart(t, routes, ops)
    ensures ops[n].destination !in With(t, routes) ==> FreshPart(t, routes + [ops[n]], ops)
  {
    WithDomain(t, routes, ops[n].destination);
  }

  lemma {:induction false} CreatedIsNew(t: Table, ops: seq<Route>)
    ensures FreshPart(t, Created(t, ops), ops)
  {
    if ops != [] {
      var n := |ops| - 1;
      CreatedIsNew(t, ops[..n]);
      FreshNext(t, Created(t, ops[..n]), ops, n);
    }
  }

  /** A route added last can be taken away first or last, if nothing else shares its destination. */
  lemma {:induction false} WithoutUntouched(t: Table, routes: seq<Route>, r: Route)
    requires forall i :: 0 <= i < |routes| ==> routes[i].destination != r.destination
    ensures Without(t[r.destination := r], routes) == Without(t, routes)[r.destination := r]
  {
    if routes != [] {
      var n := |routes| - 1;
      WithoutUntouched(t, routes[..n], r);
    }
  }

  lemma {:induction false} WithoutDomain(t: Table, routes: seq<Route>, d: Destination)
    requires d !in t
    ensures d !in Without(t, routes)
  {
    if routes != [] {
      WithoutDomain(t, routes[..|routes| - 1], d);
    }
  }

  lemma {:induction false} WithoutUndoesWith(t: Table, routes: seq<Route>)
    requires Distinct(routes) && NewTo(t, routes)
    ensures Without(With(t, routes), routes) == t
  {
    if routes != [] {
      var n := |routes| - 1;
      var r := routes[n];
      WithoutUndoesWith(t, routes[..n]);
      WithoutUntouched(With(t, routes[..n]), routes[..n], r);
      assert t[r.destination := r] - {r.destination} == t;
    }
  }

  /** Applying any list of routes, or any part of it, and cleaning up restores the table. */
  lemma CleanupRestores(t: Table, ops: seq<Route>)
    ensures Distinct(Created(t, ops))
    ensures Without(With(t, Created(t, ops)), Created(t, ops)) == t
  {
    CreatedIsNew(t, ops);
    WithoutUndoesWith(t, Created(t, ops));
  }

  /** `w` has the routes of `t` as they are, and one to every destination of `ops`. */
  ghost predicate Covers(w: Table, t: Table, ops: seq<Route>) {
    && (forall d :: d in t ==> d in w && w[d] == t[d])
    && (forall i :: 0 <= i < |ops| ==> ops[i].destination in w)
  }

  lemma CoversNext(w: Table, t: Table, ops: seq<Route>, n: nat)
    requires n + 1 == |ops| && Covers(w, t, ops[..n])
    ensures var r := ops[n]; Covers(if r.destination in w then w else w[r.destination := r], t, ops)
  {
    forall i | 0 <= i < n ensures ops[i].destination in w {
      assert ops[i] == ops[..n][i];
    }
  }

  lemma AppliedNext(t: Table, ops: seq<Route>, n: nat)
    requires n + 1 == |ops|
    ensures var w, r := With(t, Created(t, ops[..n])), ops[n];
            With(t, Created(t, ops)) == if r.destination in w then w else w[r.destination := r]
  {
    var before := Created(t, ops[..n]);
    assert (before + [ops[n]])[..|before|] == before;
  }

  /** Nothing found is overwritten, and every operation's destination ends up routed. */
  lemma {:induction false} AppliedPresent(t: Table, ops: seq<Route>)
    ensures Covers(With(t, Created(t, ops)), t, ops)
  {
    if ops != [] {
      var n := |ops| - 1;
      AppliedPresent(t, ops[..n]);
      AppliedNext(t, ops, n);
      CoversNext(With(t, Created(t, ops[..n])), t, ops, n);
    }
  }

  // ---- The ledger ------------------------------------------------------------------

  datatype DriftKind = Missing | Changed

  datatype Drift = Drift(kind: DriftKind, destination: Destination)

  /** Which owned routes are gone from `t`, and which are there with another identity. */
  function Drifts(t: Table, owned: seq<Route>): (r: seq<Drift>) {
    if owned == [] then []
    else
      var n := |owned| - 1;
      var before := Drifts(t, owned[..n]);
      var d := owned[n].destination;
      if d !in t then before + [Drift(Missing, d)]
      else if t[d] != owned[n] then before + [Drift(Changed, d)]
      else before
  }

  /** Every drift concerns an owned route, and no missing owned route goes unreported. */
  lemma {:induction false} DriftsExactly(t: Table, owned: seq<Route>)
    ensures forall k :: 0 <= k < |Drifts(t, owned)| ==> InOwned(Drifts(t, owned)[k].destination, owned)
    ensures forall i :: 0 <= i < |owned| ==>
              (owned[i].destination !in t <==> Drift(Missing, owned[i].destination) in Drifts(t, owned))
    ensures Drifts(t, owned) == [] <==> forall i :: 0 <= i < |owned| ==>
                                          owned[i].destination in t && t[owned[i].destination] == owned[i]
    ensures forall d :: Drift(Missing, d) in Drifts(t, owned) ==> d !in t
  {
    if owned != [] {
      var n := |owned| - 1;
      DriftsExactly(t, owned[..n]);
      InOwnedMore(owned);
    }
  }

  predicate InOwned(d: Destination, owned: seq<Route>) {
    exists i :: 0 <= i < |owned| && owned[i].destination == d
  }

  lemma InOwnedMore(owned: seq<Route>)
    requires owned != []
    ensures forall d :: InOwned(d, owned[..|owned| - 1]) ==> InOwned(d, owned)
    ensures InOwned(owned[|owned| - 1].destination, owned)
  {
  }

  /** The operation registered for each owned destination installs an owned route there. */
  ghost predicate OpsMatch(owned: seq<Route>, ops: map<Destination, Route>) {
    (forall r :: r in owned ==> r.destination in ops)
    && (forall d :: d in ops ==> ops[d].destination == d && ops[d] in owned)
  }

  /** The entries of `log` from `start` on concern owned routes. */
  ghost predicate OwnedFrom(log: seq<Change>, start: nat, owned: seq<Route>) {
    start <= |log| && forall k :: start <= k < |log| ==> log[k].route in owned
  }

  ghost predicate Grew(log: seq<Change>, old_: seq<Change>, additions: bool) {
    old_ <= log && forall k :: |old_| <= k < |log| ==> log[k].Added? == additions
  }

  /** `after` is `before` plus an owned route at every owned destination `before` did not have. */
  ghost predicate Restored(before: Table, after: Table, owned: seq<Route>) {
    (forall d :: d in before ==> d in after && after[d] == before[d])
    && (forall d :: d in after && d !in before ==> after[d] in owned && after[d].destination == d)
    && (forall r :: r in owned ==> r.destination in after)
  }

  /** The first `i` drifts have been dealt with. */
  ghost predicate Restoring(before: Table, after: Table, ops: map<Destination, Route>, drift: seq<Drift>, i: nat) {
    i <= |drift|
    && (forall d :: d in before ==> d in after && after[d] == before[d])
    && (forall d :: d in after && d !in before ==> d in ops && after[d] == ops[d])
    && (forall k :: 0 <= k < i && drift[k].kind == Missing ==> drift[k].destination in after)
  }

  lemma RestoringMore(before: Table, after: Table, ops: map<Destination, Route>, drift: seq<Drift>, i: nat)
    requires Restoring(before, after, ops, drift, i) && i < |drift|
    ensures drift[i].kind == Changed ==> Restoring(before, after, ops, drift, i + 1)
    ensures drift[i].destination in ops && drift[i].destination !in after ==>
              Restoring(before, after[drift[i].destination := ops[drift[i].destination]], ops, drift, i + 1)
  {
  }

  lemma RestoringDone(before: Table, after: Table, owned: seq<Route>, ops: map<Destination, Route>)
    requires OpsMatch(owned, ops)
    requires Restoring(before, after, ops, Drifts(before, owned), |Drifts(before, owned)|)
    ensures Restored(before, after, owned)
  {
    DriftsExactly(before, owned);
    forall r | r in owned ensures r.destination in after {
      if r.destination !in before {
        assert Drift(Missing, r.destination) in Drifts(before, owned);
      }
    }
  }

  /** `after` is `before` less some owned routes. */
  ghost predicate OnlyOwnedGone(before: Table, after: Table, owned: seq<Route>) {
    (forall d :: d in after ==> d in before && after[d] == before[d])
    && (forall d :: d in before && d !in after ==> before[d] in owned)
  }

  lemma OnlyOwnedGoneOn(before: Table, mid: Table, after: Table, owned: seq<Route>)
    requires OnlyOwnedGone(before, mid, owned) && OnlyOwnedGone(mid, after, owned)
    ensures OnlyOwnedGone(before, after, owned)
  {
  }

  lemma WithoutNext(t: Table, owned: seq<Route>, i: nat)
    requires i < |owned|
    ensures var before, r := Without(t, owned[..i]), owned[i];
            Without(t, owned[..i + 1])
            == if r.destination in before && before[r.destination] == r then before - {r.destination} else before
  {
    assert owned[..i + 1][..i] == owned[..i];
  }

  /**
   * The routes one client created.  `Valid` holds between calls: since the ledger was made, every
   * change in the log concerns an owned route, and none came after the ledger closed.
   */
  class Ownership {
    const host: Host
    const owned: seq<Route>
    const ops: map<Destination, Route>
    /** False for the ledger of a missing option set, which has no callbacks. */
    const backed: bool
    var closed: bool
    ghost const start: nat
    ghost const applied: seq<Route>
    ghost var atClose: seq<Change>

    ghost predicate Sound() reads this, host {
      OpsMatch(owned, ops)
      && (!backed ==> owned == [])
      && host.LogLawful()
      && OwnedFrom(host.log, start, owned)
    }

    ghost predicate Valid() reads this, host {
      Sound() && (closed ==> host.log == atClose)
    }

    constructor (host: Host, owned: seq<Route>, ops: map<Destination, Route>, backed: bool,
                 ghost start: nat, ghost applied: seq<Route>)
      requires OpsMatch(owned, ops)
      requires !backed ==> owned == []
      requires host.LogLawful()
      requires OwnedFrom(host.log, start, owned)
      ensures Valid() && !closed
      ensures this.host == host && this.owned == owned && this.ops == ops && this.backed == backed
      ensures this.start == start && this.applied == applied
    {
      this.host, this.owned, this.ops, this.backed := host, owned, ops, backed;
      this.closed := false;
      this.start, this.applied, this.atClose := start, applied, [];
    }

    /** Reports; changes nothing. */
    method Check() returns (ok: bool, drift: seq<Drift>)
      requires Valid()
      modifies host`table
      ensures Valid() && closed == old(closed)
      ensures closed || !backed ==> ok && drift == [] && host.table == old(host.table)
      ensures forall k :: 0 <= k < |drift| ==> InOwned(drift[k].destination, owned)
      ensures !host.shared ==> host.table == old(host.table)
      ensures !host.shared && ok && !closed ==> drift == Drifts(host.table, owned)
    {
      drift := [];
      if closed || !backed {
        return true, [];
      }
      for i := 0 to |owned|
        invariant Valid()
        invariant forall k :: 0 <= k < |drift| ==> InOwned(drift[k].destination, owned)
        invariant !host.shared ==> host.table == old(host.table)
        invariant !host.shared ==> drift == Drifts(host.table, owned[..i])
      {
        assert owned[..i + 1][..i] == owned[..i];
        var expected := owned[i];
        assert InOwned(expected.destination, owned);
        var res := host.Lookup(expected.destination);
        match res
        case LookupFailed =>
          return false, [];
        case Current(current) =>
          if current == None {
            drift := drift + [Drift(Missing, expected.destination)];
          } else if current != Some(expected) {
            drift := drift + [Drift(Changed, expected.destination)];
          }
      }
      assert owned[..|owned|] == owned;
      return true, drift;
    }

    /** Installs the operation of the first owned route to `destination`, as Repair's inner loop. */
    method Restore(destination: Destination) returns (ok: bool)
      requires Sound()
      requires InOwned(destination, owned)
      modifies host
      ensures Sound()
      ensures Grew(host.log, old(host.log), true)
      ensures !host.shared && !ok ==> host.table == old(host.table)
      ensures !host.shared && ok ==> destination !in old(host.table) && destination in ops
                                     && host.table == old(host.table)[destination := ops[destination]]
    {
      var i := 0;
      while owned[i].destination != destination
        invariant 0 <= i < |owned|
        invariant forall j :: 0 <= j < i ==> owned[j].destination != destination
        decreases |owned| - i
      {
        i := i + 1;
        assert i < |owned| by {
          var j :| 0 <= j < |owned| && owned[j].destination == destination;
        }
      }
      assert owned[i] in owned;
      var res := host.Add(ops[destination]);
      ok := res == AddOk;
    }

    /** Restores missing owned routes and leaves changed ones alone. */
    method Repair() returns (ok: bool, drift: seq<Drift>)
      requires Valid()
      modifies host
      ensures Valid() && closed == old(closed)
      ensures closed ==> ok && drift == [] && host.table == old(host.table) && host.log == old(host.log)
      ensures Grew(host.log, old(host.log), true)
      ensures !host.shared && ok && !closed ==> drift == Drifts(old(host.table), owned)
      ensures !host.shared && ok && !closed ==> Restored(old(host.table), host.table, owned)
    {
      if closed {
        return true, [];
      }
      ok, drift := Check();
      if !ok {
        return false, [];
      }
      ghost var before := host.table;
      for i := 0 to |drift|
        invariant Valid()
        invariant Grew(host.log, old(host.log), true)
        invariant !host.shared && ok ==> Restoring(before, host.table, ops, drift, i)
      {
        ghost var was := host.table;
        if drift[i].kind == Missing {
          var done := Restore(drift[i].destination);
          ok := ok && done;
        }
        if !host.shared && ok {
          RestoringMore(before, was, ops, drift, i);
        }
      }
      if !host.shared && ok {
        RestoringDone(before, host.table, owned, ops);
      }
    }

    /** Closes the ledger and removes the routes still identical to an owned one. */
    method Cleanup() returns (ok: bool)
      requires Valid()
      modifies this, host
      ensures Valid() && closed
      ensures old(closed) ==> ok && host.table == old(host.table) && host.log == old(host.log)
      ensures Grew(host.log, old(host.log), false)
      ensures !host.shared ==> OnlyOwnedGone(old(host.table), host.table, owned)
      ensures !host.shared && !old(closed) && ok && Distinct(owned) ==>
                host.table == Without(old(host.table), owned)
    {
      if closed {
        return true;
      }
      closed := true;
      ok := true;
      for i := 0 to |owned|
        invariant Sound() && closed
        invariant Grew(host.log, old(host.log), false)
        invariant !host.shared ==> OnlyOwnedGone(old(host.table), host.table, owned)
        invariant !host.shared && ok && Distinct(owned) ==> host.table == Without(old(host.table), owned[..i])
      {
        ghost var mid := host.table;
        WithoutNext(old(host.table), owned, i);
        var removed := RemoveIdentical(owned[i]);
        if !host.shared {
          OnlyOwnedGoneOn(old(host.table), mid, host.table, owned);
        }
        ok := ok && removed;
      }
      assert owned[..|owned|] == owned;
      atClose := host.log;
    }

    /** One round of Cleanup's loop. */
    method RemoveIdentical(expected: Route) returns (ok: bool)
      requires Sound()
      requires expected in owned
      modifies host
      ensures Sound()
      ensures Grew(host.log, old(host.log), false)
      ensures !host.shared ==> OnlyOwnedGone(old(host.table), host.table, owned)
      ensures !host.shared && ok && Distinct(owned) ==>
                host.table == if expected.destination in old(host.table)
                                 && old(host.table)[expected.destination] == expected
                              then old(host.table) - {expected.destination} else old(host.table)
    {
      var res := host.Lookup(expected.destination);
      if res.LookupFailed? {
        return false;
      }
      ok := true;
      if res.route == Some(expected) {
        assert Distinct(owned) ==> ops[expected.destination] == expected;
        ok := host.Remove(ops[expected.destination]);
      }
    }
  }

  // ---- ApplyRoutesOwned --------------------------------------------------------------

  datatype Interface = Interface(gateway: Option<string>)

  datatype PushedRoute = PushedRoute(destination: Destination, gateway: Option<string>)

  datatype PushOptions = PushOptions(
    net30: bool, ifconfig: Option<Interface>, routes: seq<PushedRoute>, redirectGateway: bool,
    ifconfig6: Option<Interface>, routes6: seq<PushedRoute>, redirectGateway6: bool)

  const DEFAULT4 := Destination("0.0.0.0", 0)
  const DEFAULT6 := Destination("::", 0)

  function Text(ip: Option<string>): string {
    match ip
    case None => "<nil>"
    case Some(s) => s
  }

  function DefaultGateway(i: Option<Interface>): Option<string> {
    match i
    case None => None
    case Some(Interface(gw)) => gw
  }

  function RouteTo(destination: Destination, gateway: Option<string>, iface: int): Route {
    Route(destination, if gateway == None then "" else gateway.value, iface)
  }

  function RouteFor(r: PushedRoute, defaultGateway: Option<string>, iface: int): Route {
    RouteTo(r.destination, if r.gateway == None then defaultGateway else r.gateway, iface)
  }

  /** A host route to the peer comes first on a net30 link. */
  function PeerRoutes(o: PushOptions, iface: int): seq<Route> {
    if o.net30 && o.ifconfig.Some?
    then [RouteTo(Destination(Text(o.ifconfig.value.gateway), 32), None, iface)] else []
  }

  function RoutesFor(routes: seq<PushedRoute>, defaultGateway: Option<string>, iface: int): (r: seq<Route>)
    ensures |r| == |routes|
    ensures forall i :: 0 <= i < |r| ==> r[i] == RouteFor(routes[i], defaultGateway, iface)
  {
    seq(|routes|, i requires 0 <= i < |routes| => RouteFor(routes[i], defaultGateway, iface))
  }

  function DefaultRoute(wanted: bool, destination: Destination, gateway: Option<string>, iface: int): seq<Route> {
    if wanted then [RouteTo(destination, gateway, iface)] else []
  }

  /** The routes a PUSH_REPLY asks for, in the order they are installed. */
  function Wanted(o: PushOptions, iface: int): seq<Route> {
    var gw, gw6 := DefaultGateway(o.ifconfig), DefaultGateway(o.ifconfig6);
    PeerRoutes(o, iface)
    + RoutesFor(o.routes, gw, iface) + DefaultRoute(o.redirectGateway, DEFAULT4, gw, iface)
    + RoutesFor(o.routes6, gw6, iface) + DefaultRoute(o.redirectGateway6, DEFAULT6, gw6, iface)
  }

  /** `applied` is all of `wanted`, or on failure the part before the first failure. */
  ghost predicate Upto(applied: seq<Route>, wanted: seq<Route>, ok: bool) {
    applied <= wanted && (ok ==> applied == wanted)
  }

  lemma UptoMore(applied: seq<Route>, wanted: seq<Route>, more: seq<Route>)
    requires Upto(applied, wanted, false)
    ensures Upto(applied, wanted + more, false)
  {
  }

  /** Without interference, `owned` and the table are functions of the operations applied. */
  ghost predicate Tracks(found: Table, applied: seq<Route>, owned: seq<Route>, table: Table) {
    owned == Created(found, applied) && table == With(found, owned)
  }

  lemma TracksMore(found: Table, applied: seq<Route>, owned: seq<Route>, table: Table, op: Route)
    requires Tracks(found, applied, owned, table)
    ensures op.destination in table ==> Tracks(found, applied + [op], owned, table)
    ensures op.destination !in table ==>
              Tracks(found, applied + [op], owned + [op], table[op.destination := op])
  {
  }

  lemma OwnedFromMore(log: seq<Change>, start: nat, owned: seq<Route>, op: Route, longer: seq<Change>)
    requires OwnedFrom(log, start, owned)
    requires |longer| == |log| + 1 && longer[..|log|] == log && longer[|log|].route == op
    ensures OwnedFrom(longer, start, owned + [op])
  {
  }

  lemma OpsMatchMore(owned: seq<Route>, ops: map<Destination, Route>, op: Route)
    requires OpsMatch(owned, ops)
    ensures OpsMatch(owned + [op], ops[op.destination := op])
  {
  }

  /** The variables shared by ApplyRoutesOwned's local functions. */
  class Installation {
    const host: Host
    var owned: seq<Route>
    var ops: map<Destination, Route>
    /** The table found, the log length found, and the operations that did not fail. */
    ghost const found: Table
    ghost const start: nat
    ghost var applied: seq<Route>

    ghost predicate Valid() reads this, host {
      OpsMatch(owned, ops)
      && host.LogLawful()
      && OwnedFrom(host.log, start, owned)
      && (!host.shared ==> Tracks(found, applied, owned, host.table))
    }

    constructor (host: Host)
      requires host.LogLawful()
      ensures Valid() && applied == [] && owned == []
      ensures this.host == host && found == host.table && start == |host.log|
    {
      this.host := host;
      this.owned, this.ops := [], map[];
      this.found, this.start, this.applied := host.table, |host.log|, [];
    }

    /** A route that was already there is left alone and not recorded. */
    method Apply(op: Route) returns (ok: bool)
      requires Valid()
      modifies this, host
      ensures Valid()
      ensures Grew(host.log, old(host.log), true)
      ensures applied == if ok then old(applied) + [op] else old(applied)
    {
      var res := host.Add(op);
      ok := res != AddFailed;
      if !host.shared {
        TracksMore(found, applied, owned, old(host.table), op);
      }
      if ok {
        applied := applied + [op];
      }
      if res == AddOk {
        OwnedFromMore(old(host.log), start, owned, op, host.log);
        OpsMatchMore(owned, ops, op);
        owned := owned + [op];
        ops := ops[op.destination := op];
      }
    }

    /** Applies a list of pushed routes, stopping at the first failure. */
    method ApplyAll(routes: seq<PushedRoute>, defaultGateway: Option<string>, iface: int) returns (ok: bool)
      requires Valid()
      modifies this, host
      ensures Valid()
      ensures Grew(host.log, old(host.log), true)
      ensures Upto(applied, old(applied) + RoutesFor(routes, defaultGateway, iface), ok)
    {
      ghost var all := RoutesFor(routes, defaultGateway, iface);
      for i := 0 to |routes|
        invariant Valid()
        invariant Grew(host.log, old(host.log), true)
        invariant applied == old(applied) + all[..i]
      {
        ok := Apply(RouteFor(routes[i], defaultGateway, iface));
        if !ok {
          return false;
        }
        assert all[..i + 1] == all[..i] + [all[i]];
      }
      assert all[..|routes|] == all;
      return true;
    }

    /** Applies an optional single route. */
    method ApplyIf(routes: seq<Route>) returns (ok: bool)
      requires Valid()
      requires |routes| <= 1
      modifies this, host
      ensures Valid()
      ensures Grew(host.log, old(host.log), true)
      ensures Upto(applied, old(applied) + routes, ok)
    {
      if routes == [] {
        return true;
      }
      ok := Apply(routes[0]);
    }

    /** The pushed routes of one address family and then its default route. */
    method ApplyFamily(routes: seq<PushedRoute>, gw: Option<string>, default_: seq<Route>, iface: int)
      returns (ok: bool)
      requires Valid()
      requires |default_| <= 1
      modifies this, host
      ensures Valid()
      ensures Grew(host.log, old(host.log), true)
      ensures Upto(applied, old(applied) + RoutesFor(routes, gw, iface) + default_, ok)
    {
      ok := ApplyAll(routes, gw, iface);
      if ok {
        ok := ApplyIf(default_);
      } else {
        UptoMore(applied, old(applied) + RoutesFor(routes, gw, iface), default_);
      }
    }

    method MakeOwner() returns (o: Ownership)
      requires Valid()
      ensures fresh(o) && o.Valid() && !o.closed
      ensures o.host == host && o.owned == owned && o.applied == applied && o.start == start
    {
      o := new Ownership(host, owned, ops, true, start, applied);
    }
  }

  method ApplyRoutesOwned(host: Host, opts: Option<PushOptions>, iface: int) returns (o: Ownership, ok: bool)
    requires host.LogLawful()
    modifies host
    ensures fresh(o) && o.Valid() && !o.closed && o.host == host && o.start == |old(host.log)|
    ensures Grew(host.log, old(host.log), true)
    ensures opts == None ==> ok && o.owned == [] && host.table == old(host.table)
    ensures opts.Some? ==> Upto(o.applied, Wanted(opts.value, iface), ok)
    ensures !host.shared && opts.Some? ==>
              o.owned == Created(old(host.table), o.applied) && host.table == With(old(host.table), o.owned)
  {
    if opts == None {
      o := new Ownership(host, [], map[], false, |host.log|, []);
      return o, true;
    }
    var p := opts.value;
    var run := new Installation(host);
    var gw, gw6 := DefaultGateway(p.ifconfig), DefaultGateway(p.ifconfig6);
    ghost var w := PeerRoutes(p, iface);
    ok := run.ApplyIf(PeerRoutes(p, iface));
    assert Upto(run.applied, w, ok);
    var default4 := DefaultRoute(p.redirectGateway, DEFAULT4, gw, iface);
    if ok {
      ok := run.ApplyFamily(p.routes, gw, default4, iface);
    } else {
      UptoMore(run.applied, w, RoutesFor(p.routes, gw, iface));
      UptoMore(run.applied, w + RoutesFor(p.routes, gw, iface), default4);
    }
    w := w + RoutesFor(p.routes, gw, iface) + default4;
    assert Upto(run.applied, w, ok);
    var default6 := DefaultRoute(p.redirectGateway6, DEFAULT6, gw6, iface);
    if ok {
      ok := run.ApplyFamily(p.routes6, gw6, default6, iface);
    } else {
      UptoMore(run.applied, w, RoutesFor(p.routes6, gw6, iface));
      UptoMore(run.applied, w + RoutesFor(p.routes6, gw6, iface), default6);
    }
    o := run.MakeOwner();
  }

  /** Connecting, wholly or in part, and disconnecting without an error leaves no trace. */
  method ApplyThenCleanup(host: Host, opts: Option<PushOptions>, iface: int) returns (applied: bool, cleaned: bool)
    requires host.LogLawful() && !host.shared
    modifies host
    ensures cleaned ==> host.table == old(host.table)
  {
    var o: Ownership;
    o, applied := ApplyRoutesOwned(host, opts, iface);
    cleaned := o.Cleanup();
    if opts.Some? {
      CleanupRestores(old(host.table), o.applied);
    }
  }
}
