/** Which route each recipient's copy takes, and how a message's recipients are split by route. */
module Router {
  import opened Types
  import opened Text
  import MailAddr

  // An address as its bits: 32 of them for IPv4, 128 for IPv6.
  type Addr = seq<bool>

  // A network: the bits its addresses share, and the length of the addresses it is about.
  datatype Prefix = Prefix(bits: seq<bool>, width: nat)

  datatype Route = Route(name: string, domains: seq<string>, sources: seq<Option<Prefix>>, isDefault: bool)

  datatype Source = Source(prefix: Prefix, route: string)

  // The lookup tables; def is empty when no route is the default one.
  datatype Tables = Tables(byDomain: map<string, string>, sources: seq<Source>, def: string)

  datatype Reason = ByDomain | BySource | ByClient | ByDefault

  datatype Decision = Decision(route: string, reason: Reason)

  datatype Group = Group(route: string, reason: Reason, recipients: seq<string>)

  predicate Contains(p: Prefix, a: Addr) {
    |a| == p.width && p.bits <= a
  }

  /** Two networks overlap when one holds the other. */
  predicate Overlaps(p: Prefix, q: Prefix) {
    p.width == q.width && (p.bits <= q.bits || q.bits <= p.bits)
  }

  /** An IPv4 address written as an IPv6 one is the IPv4 address. */
  function Unmap(a: Addr): Addr {
    if |a| == 128 && (forall i :: 0 <= i < 96 ==> a[i] == (80 <= i)) then a[96..] else a
  }

  ghost predicate Disjoint(sources: seq<Source>) {
    forall i, j :: 0 <= i < j < |sources| ==> !Overlaps(sources[i].prefix, sources[j].prefix)
  }

  /** The domains a route claims: trimmed, in lower case, blank entries ignored. */
  function DomainsOf(domains: seq<string>): seq<string> {
    if domains == [] then []
    else
      var n := |domains| - 1;
      var d := Lower(TrimSpace(domains[n]));
      DomainsOf(domains[..n]) + (if d == "" then [] else [d])
  }

  function SourcesOf(sources: seq<Option<Prefix>>, name: string): seq<Source>
    requires forall p :: p in sources ==> p.Some?
  {
    seq(|sources|, i requires 0 <= i < |sources| => Source(sources[i].value, name))
  }

  ghost predicate Distinct(routes: seq<string>) {
    forall i, j :: 0 <= i < j < |routes| ==> routes[i] != routes[j]
  }

  /** Nothing the route claims is claimed already, by itself or by a route before it. */
  ghost predicate Fits(t: Tables, r: Route) {
    && Unclaimed(DomainsOf(r.domains), t.byDomain)
    && (forall p :: p in r.sources ==> p.Some?) && Disjoint(t.sources + SourcesOf(r.sources, r.name))
    && !(r.isDefault && t.def != "")
  }

  /** The tables with one route more. */
  ghost function Extended(t: Tables, r: Route): Tables
    requires Fits(t, r)
  {
    Tables(t.byDomain + (map d | d in DomainsOf(r.domains) :: r.name), t.sources + SourcesOf(r.sources, r.name),
           if r.isDefault then r.name else t.def)
  }

  /** The tables of all routes, unless one of them claims what is taken. */
  ghost function Built(routes: seq<Route>): Option<Tables> {
    if routes == [] then Some(Tables(map[], [], ""))
    else
      var n := |routes| - 1;
      var t := Built(routes[..n]);
      if t.None? || !Fits(t.value, routes[n]) then None else Some(Extended(t.value, routes[n]))
  }

  lemma {:induction false} NeverBuilt(routes: seq<Route>, i: nat)
    requires i <= |routes| && Built(routes[..i]).None?
    ensures Built(routes).None?
    decreases |routes|
  {
    if i < |routes| {
      assert routes[..|routes| - 1][..i] == routes[..i];
      NeverBuilt(routes[..|routes| - 1], i);
    } else {
      assert routes[..i] == routes;
    }
  }

  /** Built tables hold every claim under its own route, and no two networks in them overlap. */
  lemma {:induction false} EveryClaimIsKept(routes: seq<Route>)
    requires Built(routes).Some? && forall r :: r in routes ==> r.name != ""
    ensures Disjoint(Built(routes).value.sources)
    ensures forall r :: r in routes ==> Registered(r, Built(routes).value)
  {
    if routes != [] {
      var n := |routes| - 1;
      EveryClaimIsKept(routes[..n]);
      var t, t' := Built(routes[..n]).value, Built(routes).value;
      forall r | r in routes
        ensures Registered(r, t')
      {
        if r in routes[..n] {
          StaysRegistered(r, t, routes[n]);
        } else {
          IsRegistered(t, routes[n]);
        }
      }
    }
  }

  /** Some route claims this under that name. */
  ghost predicate ClaimsDomain(routes: seq<Route>, d: string, name: string) {
    exists r :: r in routes && r.name == name && d in DomainsOf(r.domains)
  }

  ghost predicate ClaimsSource(routes: seq<Route>, s: Source) {
    exists r :: r in routes && r.name == s.route && Some(s.prefix) in r.sources
  }

  ghost predicate ClaimsDefault(routes: seq<Route>, name: string) {
    exists r :: r in routes && r.name == name && r.isDefault
  }

  /** Built tables hold nothing but claims: no domain, network or default that no route asked for under that name. */
  lemma {:induction false} OnlyClaimsAreKept(routes: seq<Route>)
    requires Built(routes).Some?
    ensures var t := Built(routes).value;
            && (forall d :: d in t.byDomain ==> ClaimsDomain(routes, d, t.byDomain[d]))
            && (forall s :: s in t.sources ==> ClaimsSource(routes, s))
            && (t.def != "" ==> ClaimsDefault(routes, t.def))
  {
    if routes != [] {
      var n := |routes| - 1;
      var last, t := routes[n], Built(routes[..n]).value;
      OnlyClaimsAreKept(routes[..n]);
      assert last in routes && forall r :: r in routes[..n] ==> r in routes;
      forall d | d in t.byDomain
        ensures ClaimsDomain(routes, d, t.byDomain[d])
      {
        var r :| r in routes[..n] && r.name == t.byDomain[d] && d in DomainsOf(r.domains);
        assert r in routes;
      }
      forall s | s in t.sources
        ensures ClaimsSource(routes, s)
      {
        var r :| r in routes[..n] && r.name == s.route && Some(s.prefix) in r.sources;
        assert r in routes;
      }
      if t.def != "" {
        var r :| r in routes[..n] && r.name == t.def && r.isDefault;
        assert r in routes;
      }
      forall s | s in SourcesOf(last.sources, last.name)
        ensures ClaimsSource(routes, s)
      {
        var i :| 0 <= i < |last.sources| && SourcesOf(last.sources, last.name)[i] == s;
        assert last.sources[i] in last.sources && last.sources[i].Some?;
      }
    }
  }

  /** Everything a route claims is in the tables under its name. */
  ghost predicate Registered(r: Route, t: Tables) {
    && (forall d :: d in DomainsOf(r.domains) ==> d in t.byDomain && t.byDomain[d] == r.name)
    && (forall p :: p in r.sources ==> p.Some? && Source(p.value, r.name) in t.sources)
    && (r.isDefault ==> t.def == r.name)
  }

  lemma StaysRegistered(r: Route, t: Tables, next: Route)
    requires Registered(r, t) && Fits(t, next) && r.name != ""
    ensures Registered(r, Extended(t, next))
  {
  }

  lemma IsRegistered(t: Tables, r: Route)
    requires Fits(t, r)
    ensures Registered(r, Extended(t, r))
  {
    forall p | p in r.sources
      ensures Source(p.value, r.name) in Extended(t, r).sources
    {
      var i :| 0 <= i < |r.sources| && r.sources[i] == p;
      assert SourcesOf(r.sources, r.name)[i] == Source(p.value, r.name);
    }
  }

  /** New: the tables, or an error at the first route that claims what is taken. */
  method New(routes: seq<Route>) returns (t: Option<Tables>)
    ensures t == Built(routes)
  {
    var out := Tables(map[], [], "");
    for i := 0 to |routes|
      invariant Built(routes[..i]) == Some(out) && Disjoint(out.sources)
    {
      assert routes[..i + 1][..i] == routes[..i];
      var next := AddRoute(out, routes[i]);
      if next.None? {
        NeverBuilt(routes, i + 1);
        return None;
      }
      out := next.value;
    }
    assert routes[..|routes|] == routes;
    t := Some(out);
  }

  method AddRoute(t: Tables, r: Route) returns (out: Option<Tables>)
    requires Disjoint(t.sources)
    ensures out == if Fits(t, r) then Some(Extended(t, r)) else None
  {
    var byDomain := AddDomains(t.byDomain, r);
    if byDomain.None? {
      return None;
    }
    var sources := AddSources(t.sources, r);
    if sources.None? {
      return None;
    }
    if r.isDefault && t.def != "" {
      return None;
    }
    out := Some(Tables(byDomain.value, sources.value, if r.isDefault then r.name else t.def));
  }

  method AddDomains(byDomain: map<string, string>, r: Route) returns (out: Option<map<string, string>>)
    ensures if Unclaimed(DomainsOf(r.domains), byDomain)
            then out == Some(byDomain + (map d | d in DomainsOf(r.domains) :: r.name)) else out == None
  {
    var m := byDomain;
    for i := 0 to |r.domains|
      invariant Unclaimed(DomainsOf(r.domains[..i]), byDomain)
      invariant m == byDomain + (map d | d in DomainsOf(r.domains[..i]) :: r.name)
    {
      assert r.domains[..i + 1][..i] == r.domains[..i];
      ghost var ds := DomainsOf(r.domains[..i]);
      var d := Lower(TrimSpace(r.domains[i]));
      if d == "" {
        assert ds + [] == ds;
        continue;
      }
      if d in m {
        Taken(r.domains, i + 1, byDomain);
        return None;
      }
      OneDomainMore(ds, d, byDomain, r.name);
      m := m[d := r.name];
    }
    assert r.domains[..|r.domains|] == r.domains;
    out := Some(m);
  }

  ghost predicate Unclaimed(ds: seq<string>, byDomain: map<string, string>) {
    Distinct(ds) && forall d :: d in ds ==> d !in byDomain
  }

  lemma OneDomainMore(ds: seq<string>, d: string, byDomain: map<string, string>, name: string)
    requires Unclaimed(ds, byDomain) && d !in byDomain + (map k | k in ds :: name)
    ensures Unclaimed(ds + [d], byDomain)
    ensures (byDomain + (map k | k in ds :: name))[d := name] == byDomain + (map k | k in ds + [d] :: name)
  {
    DistinctAppend(ds, d);
  }

  /** A domain that is taken stays so, whatever else the route claims after it. */
  lemma {:induction false} Taken(domains: seq<string>, i: nat, byDomain: map<string, string>)
    requires 0 < i <= |domains| && Lower(TrimSpace(domains[i - 1])) != ""
    requires Lower(TrimSpace(domains[i - 1])) in byDomain || Lower(TrimSpace(domains[i - 1])) in DomainsOf(domains[..i - 1])
    ensures !Unclaimed(DomainsOf(domains), byDomain)
    decreases |domains|
  {
    var n := |domains| - 1;
    if i < |domains| {
      assert domains[..n][..i - 1] == domains[..i - 1];
      Taken(domains[..n], i, byDomain);
      NotDistinctOnward(DomainsOf(domains[..n]), DomainsOf(domains));
    } else {
      var before, d := DomainsOf(domains[..n]), Lower(TrimSpace(domains[n]));
      assert DomainsOf(domains) == before + [d];
      assert (before + [d])[|before|] == d;
      if d in before {
        var k :| 0 <= k < |before| && before[k] == d;
        assert (before + [d])[k] == d;
      }
    }
  }

  lemma NotDistinctOnward(a: seq<string>, b: seq<string>)
    requires a <= b
    ensures Distinct(b) ==> Distinct(a)
    ensures forall d :: d in a ==> d in b
  {
    assert forall k :: 0 <= k < |a| ==> b[k] == a[k];
  }

  method AddSources(sources: seq<Source>, r: Route) returns (out: Option<seq<Source>>)
    requires Disjoint(sources)
    ensures if (forall p :: p in r.sources ==> p.Some?) && Disjoint(sources + SourcesOf(r.sources, r.name))
            then out == Some(sources + SourcesOf(r.sources, r.name)) else out == None
  {
    var all := sources;
    for i := 0 to |r.sources|
      invariant forall p :: p in r.sources[..i] ==> p.Some?
      invariant all == sources + SourcesOf(r.sources[..i], r.name)
      invariant Disjoint(all)
    {
      assert r.sources[..i + 1] == r.sources[..i] + [r.sources[i]];
      if r.sources[i].None? {
        assert r.sources[i] in r.sources;
        return None;
      }
      var p := r.sources[i].value;
      var clash := exists o :: o in all && Overlaps(o.prefix, p);
      if clash {
        Overlapping(sources, r, i, all);
        return None;
      }
      assert forall k :: 0 <= k < |all| ==> all[k] in all;
      all := all + [Source(p, r.name)];
      assert SourcesOf(r.sources[..i + 1], r.name) == SourcesOf(r.sources[..i], r.name) + [Source(p, r.name)];
    }
    assert r.sources[..|r.sources|] == r.sources;
    out := Some(all);
  }

  lemma Overlapping(sources: seq<Source>, r: Route, i: nat, all: seq<Source>)
    requires i < |r.sources| && r.sources[i].Some? && forall p :: p in r.sources[..i] ==> p.Some?
    requires all == sources + SourcesOf(r.sources[..i], r.name)
    requires exists o :: o in all && Overlaps(o.prefix, r.sources[i].value)
    ensures (forall p :: p in r.sources ==> p.Some?) ==> !Disjoint(sources + SourcesOf(r.sources, r.name))
  {
    if forall p :: p in r.sources ==> p.Some? {
      var whole := sources + SourcesOf(r.sources, r.name);
      var k :| 0 <= k < |all| && Overlaps(all[k].prefix, r.sources[i].value);
      assert whole[k] == all[k] && whole[|sources| + i] == Source(r.sources[i].value, r.name);
      assert k < |sources| + i && Overlaps(whole[k].prefix, whole[|sources| + i].prefix);
    }
  }

  /** Some network of the table holds the address. */
  predicate InSome(sources: seq<Source>, a: Addr) {
    exists s :: s in sources && Contains(s.prefix, a)
  }

  /** The network with the longest prefix that holds the address. */
  function LongestFrom(sources: seq<Source>, a: Addr): Option<Source> {
    if sources == [] then None
    else
      var n := |sources| - 1;
      var best := LongestFrom(sources[..n], a);
      if Contains(sources[n].prefix, a) && (best.None? || |sources[n].prefix.bits| > |best.value.prefix.bits|)
      then Some(sources[n]) else best
  }

  /** matchSource: the best so far, over all networks. */
  method MatchSource(sources: seq<Source>, a: Addr) returns (route: string, bits: int, ok: bool)
    ensures match LongestFrom(sources, a)
            case None => !ok && bits == -1
            case Some(s) => ok && route == s.route && bits == |s.prefix.bits|
  {
    route, bits, ok := "", -1, false;
    for i := 0 to |sources|
      invariant match LongestFrom(sources[..i], a)
                case None => !ok && bits == -1
                case Some(s) => ok && route == s.route && bits == |s.prefix.bits|
    {
      assert sources[..i + 1][..i] == sources[..i];
      if Contains(sources[i].prefix, a) && |sources[i].prefix.bits| > bits {
        route, bits, ok := sources[i].route, |sources[i].prefix.bits|, true;
      }
    }
    assert sources[..|sources|] == sources;
  }

  /** With tables New built there is never a choice: one network at most holds an address. */
  lemma OneNetworkAtMost(sources: seq<Source>, a: Addr, i: nat, j: nat)
    requires Disjoint(sources) && i < |sources| && j < |sources|
    requires Contains(sources[i].prefix, a) && Contains(sources[j].prefix, a)
    ensures i == j
  {
    BothHold(sources[i].prefix, sources[j].prefix, a);
  }

  lemma BothHold(p: Prefix, q: Prefix, a: Addr)
    requires Contains(p, a) && Contains(q, a)
    ensures Overlaps(p, q) && Overlaps(q, p)
  {
    if |p.bits| <= |q.bits| {
      assert q.bits[..|p.bits|] == a[..|p.bits|] == p.bits;
    } else {
      assert p.bits[..|q.bits|] == a[..|q.bits|] == q.bits;
    }
  }

  /** Resolve: domain, then source network, then the client's own route, then the default. */
  function Resolve(t: Tables, rcpt: string, src: Addr, clientRoute: string, clientBits: int): Option<Decision> {
    var d := MailAddr.DomainOf(rcpt);
    var s := LongestFrom(t.sources, Unmap(src));
    if d != "" && d in t.byDomain then Some(Decision(t.byDomain[d], ByDomain))
    else if s.Some? && (clientRoute == "" || |s.value.prefix.bits| > clientBits) then
      Some(Decision(s.value.route, BySource))
    else if clientRoute != "" then Some(Decision(clientRoute, ByClient))
    else if t.def != "" then Some(Decision(t.def, ByDefault))
    else None
  }

  /** A recipient has no route only when there is neither rule, network, client route nor default for it. */
  lemma UnroutableIff(t: Tables, rcpt: string, src: Addr, clientRoute: string, clientBits: int)
    ensures Resolve(t, rcpt, src, clientRoute, clientBits).None? <==>
            && MailAddr.DomainOf(rcpt) !in (t.byDomain.Keys - {""})
            && !InSome(t.sources, Unmap(src)) && clientRoute == "" && t.def == ""
  {
    LongestIsIn(t.sources, Unmap(src));
  }

  /** In this network and in no other of the tables. */
  ghost predicate OnlyHolder(sources: seq<Source>, s: Source, a: Addr) {
    Contains(s.prefix, a) && forall o :: o in sources && Contains(o.prefix, a) ==> o == s
  }

  /**
   The order of the rules: the recipient's domain goes before everything; without one in the tables
   the network of the sender counts where the client names no route or the network is narrower
   than the one the client is known by; then the client's route, and last of all the default.
   */
  lemma ResolveInOrder(t: Tables, rcpt: string, src: Addr, clientRoute: string, clientBits: int)
    ensures var d := MailAddr.DomainOf(rcpt);
            var known := d != "" && d in t.byDomain;
            var res := Resolve(t, rcpt, src, clientRoute, clientBits);
            && (known ==> res == Some(Decision(t.byDomain[d], ByDomain)))
            && (!known && (forall s :: s in t.sources ==> !Contains(s.prefix, Unmap(src))) ==>
                  res == if clientRoute != "" then Some(Decision(clientRoute, ByClient))
                         else if t.def != "" then Some(Decision(t.def, ByDefault)) else None)
            && (!known && res.Some? && res.value.reason == BySource ==>
                  exists s :: s in t.sources && Contains(s.prefix, Unmap(src)) && s.route == res.value.route)
            && (forall s :: s in t.sources && OnlyHolder(t.sources, s, Unmap(src)) ==>
                  (!known ==>
                     res == if clientRoute == "" || |s.prefix.bits| > clientBits then Some(Decision(s.route, BySource))
                            else Some(Decision(clientRoute, ByClient))))
  {
    LongestIsIn(t.sources, Unmap(src));
  }

  lemma {:induction false} LongestIsIn(sources: seq<Source>, a: Addr)
    ensures LongestFrom(sources, a).Some? <==> InSome(sources, a)
    ensures LongestFrom(sources, a).Some? ==>
              LongestFrom(sources, a).value in sources && Contains(LongestFrom(sources, a).value.prefix, a)
    ensures forall s :: s in sources && Contains(s.prefix, a) ==>
                          LongestFrom(sources, a).Some? && |s.prefix.bits| <= |LongestFrom(sources, a).value.prefix.bits|
  {
    if sources != [] {
      var n := |sources| - 1;
      LongestIsIn(sources[..n], a);
      assert sources == sources[..n] + [sources[n]] && sources[n] in sources;
    }
  }

  /** The recipients that resolve to a route, in the order they were accepted. */
  function RecipientsOf(t: Tables, rcpts: seq<string>, src: Addr, clientRoute: string, clientBits: int, route: string): seq<string> {
    if rcpts == [] then []
    else
      var n := |rcpts| - 1;
      var d := Resolve(t, rcpts[n], src, clientRoute, clientBits);
      RecipientsOf(t, rcpts[..n], src, clientRoute, clientBits, route)
      + (if d.Some? && d.value.route == route then [rcpts[n]] else [])
  }

  /** The routes the recipients resolve to, in the order they are first met. */
  function RoutesOf(t: Tables, rcpts: seq<string>, src: Addr, clientRoute: string, clientBits: int): seq<string> {
    if rcpts == [] then []
    else
      var n := |rcpts| - 1;
      var d := Resolve(t, rcpts[n], src, clientRoute, clientBits);
      var seen := RoutesOf(t, rcpts[..n], src, clientRoute, clientBits);
      if d.None? || d.value.route in seen then seen else seen + [d.value.route]
  }

  ghost predicate AllRoutable(t: Tables, rcpts: seq<string>, src: Addr, clientRoute: string, clientBits: int) {
    forall r :: r in rcpts ==> Resolve(t, r, src, clientRoute, clientBits).Some?
  }

  /** Groups with distinct routes in first-seen order, each holding exactly its own recipients in order. */
  ghost predicate IsSplit(t: Tables, rcpts: seq<string>, src: Addr, clientRoute: string, clientBits: int, groups: seq<Group>) {
    && |groups| == |RoutesOf(t, rcpts, src, clientRoute, clientBits)|
    && (forall i :: 0 <= i < |groups| ==>
          && groups[i].route == RoutesOf(t, rcpts, src, clientRoute, clientBits)[i]
          && groups[i].recipients == RecipientsOf(t, rcpts, src, clientRoute, clientBits, groups[i].route))
  }

  /** Split: one group per route, or none at all when a recipient has no route. */
  method Split(t: Tables, rcpts: seq<string>, src: Addr, clientRoute: string, clientBits: int) returns (groups: Option<seq<Group>>)
    ensures groups.Some? <==> AllRoutable(t, rcpts, src, clientRoute, clientBits)
    ensures groups.Some? ==> IsSplit(t, rcpts, src, clientRoute, clientBits, groups.value)
  {
    var out: seq<Group> := [];
    var at: map<string, int> := map[];
    for i := 0 to |rcpts|
      invariant AllRoutable(t, rcpts[..i], src, clientRoute, clientBits)
      invariant IsSplit(t, rcpts[..i], src, clientRoute, clientBits, out)
      invariant forall r :: r in at <==> r in RoutesOf(t, rcpts[..i], src, clientRoute, clientBits)
      invariant forall r :: r in at ==> 0 <= at[r] < |out| && out[at[r]].route == r
    {
      ghost var before := rcpts[..i];
      assert rcpts[..i + 1] == before + [rcpts[i]] && rcpts[..i + 1][..i] == before;
      var d := Resolve(t, rcpts[i], src, clientRoute, clientBits);
      if d.None? {
        assert rcpts[i] in rcpts;
        return None;
      }
      var route := d.value.route;
      ghost var was := out;
      if route !in at {
        out := out + [Group(route, d.value.reason, [])];
        at := at[route := |out| - 1];
      }
      var k := at[route];
      ghost var mid := out;
      out := out[k := out[k].(recipients := out[k].recipients + [rcpts[i]])];
      SplitStep(t, before, rcpts[i], src, clientRoute, clientBits, was, mid, out, k, d.value);
    }
    assert rcpts[..|rcpts|] == rcpts;
    groups := Some(out);
  }

  lemma SplitStep(t: Tables, before: seq<string>, rcpt: string, src: Addr, clientRoute: string, clientBits: int,
                  was: seq<Group>, mid: seq<Group>, out: seq<Group>, k: nat, d: Decision)
    requires IsSplit(t, before, src, clientRoute, clientBits, was)
    requires Resolve(t, rcpt, src, clientRoute, clientBits) == Some(d)
    requires mid == if d.route in RoutesOf(t, before, src, clientRoute, clientBits) then was else was + [Group(d.route, d.reason, [])]
    requires k < |mid| && mid[k].route == d.route
    requires out == mid[k := mid[k].(recipients := mid[k].recipients + [rcpt])]
    ensures IsSplit(t, before + [rcpt], src, clientRoute, clientBits, out)
  {
    var all := before + [rcpt];
    assert all[..|before|] == before;
    var routes := RoutesOf(t, before, src, clientRoute, clientBits);
    RoutesAreDistinct(t, before, src, clientRoute, clientBits);
    if d.route !in routes {
      NobodyYet(t, before, src, clientRoute, clientBits, d.route);
    }
    forall i | 0 <= i < |out|
      ensures out[i].route == RoutesOf(t, all, src, clientRoute, clientBits)[i]
      ensures out[i].recipients == RecipientsOf(t, all, src, clientRoute, clientBits, out[i].route)
    {
      assert i < |was| ==> was[i].route == routes[i];
      assert out[i].route == mid[i].route;
    }
  }

  /** A recipient is in the list of a route exactly when it was given and resolves to that route. */
  lemma {:induction false} InItsList(t: Tables, rcpts: seq<string>, src: Addr, clientRoute: string, clientBits: int,
                                     route: string, rcpt: string)
    ensures rcpt in RecipientsOf(t, rcpts, src, clientRoute, clientBits, route) <==>
            rcpt in rcpts && var d := Resolve(t, rcpt, src, clientRoute, clientBits); d.Some? && d.value.route == route
  {
    if rcpts != [] {
      var n := |rcpts| - 1;
      assert rcpts == rcpts[..n] + [rcpts[n]];
      InItsList(t, rcpts[..n], src, clientRoute, clientBits, route, rcpt);
    }
  }

  lemma {:induction false} RouteIsMet(t: Tables, rcpts: seq<string>, src: Addr, clientRoute: string, clientBits: int, rcpt: string)
    requires rcpt in rcpts && Resolve(t, rcpt, src, clientRoute, clientBits).Some?
    ensures Resolve(t, rcpt, src, clientRoute, clientBits).value.route in RoutesOf(t, rcpts, src, clientRoute, clientBits)
  {
    var n := |rcpts| - 1;
    if rcpt != rcpts[n] {
      assert rcpts == rcpts[..n] + [rcpts[n]];
      RouteIsMet(t, rcpts[..n], src, clientRoute, clientBits, rcpt);
    }
  }

  /** Every recipient is in the group of the route it resolves to, and in no other. */
  lemma InItsGroup(t: Tables, rcpts: seq<string>, src: Addr, clientRoute: string, clientBits: int, groups: seq<Group>, rcpt: string)
    requires AllRoutable(t, rcpts, src, clientRoute, clientBits) && IsSplit(t, rcpts, src, clientRoute, clientBits, groups)
    requires rcpt in rcpts
    ensures exists k :: 0 <= k < |groups| && rcpt in groups[k].recipients
    ensures forall k :: 0 <= k < |groups| ==>
              (rcpt in groups[k].recipients <==> groups[k].route == Resolve(t, rcpt, src, clientRoute, clientBits).value.route)
  {
    var route := Resolve(t, rcpt, src, clientRoute, clientBits).value.route;
    RouteIsMet(t, rcpts, src, clientRoute, clientBits, rcpt);
    var routes := RoutesOf(t, rcpts, src, clientRoute, clientBits);
    var i :| 0 <= i < |routes| && routes[i] == route;
    forall k | 0 <= k < |groups|
      ensures rcpt in groups[k].recipients <==> groups[k].route == route
    {
      InItsList(t, rcpts, src, clientRoute, clientBits, groups[k].route, rcpt);
    }
    assert groups[i].route == route;
  }

  lemma {:induction false} RoutesAreDistinct(t: Tables, rcpts: seq<string>, src: Addr, clientRoute: string, clientBits: int)
    ensures Distinct(RoutesOf(t, rcpts, src, clientRoute, clientBits))
  {
    if rcpts != [] {
      var n := |rcpts| - 1;
      var seen := RoutesOf(t, rcpts[..n], src, clientRoute, clientBits);
      RoutesAreDistinct(t, rcpts[..n], src, clientRoute, clientBits);
      var d := Resolve(t, rcpts[n], src, clientRoute, clientBits);
      if d.Some? && d.value.route !in seen {
        DistinctAppend(seen, d.value.route);
      }
    }
  }

  lemma DistinctAppend(seen: seq<string>, route: string)
    requires Distinct(seen) && route !in seen
    ensures Distinct(seen + [route])
  {
    assert forall i :: 0 <= i < |seen| ==> seen[i] in seen;
  }

  lemma {:induction false} NobodyYet(t: Tables, rcpts: seq<string>, src: Addr, clientRoute: string, clientBits: int, route: string)
    requires route !in RoutesOf(t, rcpts, src, clientRoute, clientBits)
    ensures RecipientsOf(t, rcpts, src, clientRoute, clientBits, route) == []
  {
    if rcpts != [] {
      var n := |rcpts| - 1;
      var d := Resolve(t, rcpts[n], src, clientRoute, clientBits);
      var seen := RoutesOf(t, rcpts[..n], src, clientRoute, clientBits);
      assert forall r :: r in seen ==> r in RoutesOf(t, rcpts, src, clientRoute, clientBits);
      assert d.Some? ==> d.value.route in RoutesOf(t, rcpts, src, clientRoute, clientBits);
      NobodyYet(t, rcpts[..n], src, clientRoute, clientBits, route);
      assert d.Some? ==> d.value.route != route;
      assert RecipientsOf(t, rcpts, src, clientRoute, clientBits, route) ==
             RecipientsOf(t, rcpts[..n], src, clientRoute, clientBits, route) + [];
    }
  }

  function Together(groups: seq<Group>): multiset<string> {
    if groups == [] then multiset{}
    else Together(groups[..|groups| - 1]) + multiset(groups[|groups| - 1].recipients)
  }

  /** A partition: every recipient is in the groups as often as it was given, duplicates kept. */
  lemma {:induction false} NobodyIsLost(t: Tables, rcpts: seq<string>, src: Addr, clientRoute: string, clientBits: int, groups: seq<Group>)
    requires AllRoutable(t, rcpts, src, clientRoute, clientBits) && IsSplit(t, rcpts, src, clientRoute, clientBits, groups)
    ensures Together(groups) == multiset(rcpts)
  {
    if rcpts == [] {
    } else {
      var n := |rcpts| - 1;
      var before, d := rcpts[..n], Resolve(t, rcpts[n], src, clientRoute, clientBits).value;
      assert rcpts == before + [rcpts[n]];
      var routes := RoutesOf(t, before, src, clientRoute, clientBits);
      var was := seq(|routes|, i requires 0 <= i < |routes| =>
        Group(routes[i], ByDomain, RecipientsOf(t, before, src, clientRoute, clientBits, routes[i])));
      NobodyIsLost(t, before, src, clientRoute, clientBits, was);
      OneMoreRecipient(t, before, rcpts[n], src, clientRoute, clientBits, was, groups, d);
    }
  }

  lemma OneMoreRecipient(t: Tables, before: seq<string>, rcpt: string, src: Addr, clientRoute: string, clientBits: int,
                         was: seq<Group>, groups: seq<Group>, d: Decision)
    requires IsSplit(t, before, src, clientRoute, clientBits, was)
    requires Resolve(t, rcpt, src, clientRoute, clientBits) == Some(d)
    requires IsSplit(t, before + [rcpt], src, clientRoute, clientBits, groups)
    ensures Together(groups) == Together(was) + multiset{rcpt}
  {
    var routes := RoutesOf(t, before, src, clientRoute, clientBits);
    RoutesAreDistinct(t, before, src, clientRoute, clientBits);
    forall i | 0 <= i < |was|
      ensures i < |groups| && groups[i].recipients == was[i].recipients + (if routes[i] == d.route then [rcpt] else [])
    {
      GroupGrows(t, before, rcpt, src, clientRoute, clientBits, was, groups, d, i);
    }
    LastGroup(t, before, rcpt, src, clientRoute, clientBits, groups, d);
    TogetherGrew(was, groups, routes, d.route, rcpt);
  }

  lemma LastGroup(t: Tables, before: seq<string>, rcpt: string, src: Addr, clientRoute: string, clientBits: int,
                  groups: seq<Group>, d: Decision)
    requires Resolve(t, rcpt, src, clientRoute, clientBits) == Some(d)
    requires IsSplit(t, before + [rcpt], src, clientRoute, clientBits, groups)
    ensures var routes := RoutesOf(t, before, src, clientRoute, clientBits);
            if d.route in routes then |groups| == |routes|
            else |groups| == |routes| + 1 && groups[|routes|].recipients == [rcpt]
  {
    assert (before + [rcpt])[..|before|] == before;
    if d.route !in RoutesOf(t, before, src, clientRoute, clientBits) {
      NobodyYet(t, before, src, clientRoute, clientBits, d.route);
    }
  }

  lemma TogetherGrew(was: seq<Group>, groups: seq<Group>, routes: seq<string>, route: string, rcpt: string)
    requires |routes| == |was| <= |groups| && Distinct(routes)
    requires forall i :: 0 <= i < |was| ==>
                           groups[i].recipients == was[i].recipients + (if routes[i] == route then [rcpt] else [])
    requires if route in routes then |groups| == |was| else |groups| == |was| + 1 && groups[|was|].recipients == [rcpt]
    ensures Together(groups) == Together(was) + multiset{rcpt}
  {
    if route in routes {
      var k :| 0 <= k < |routes| && routes[k] == route;
      TogetherUpdated(was, groups, k, rcpt);
    } else {
      assert forall i :: 0 <= i < |routes| ==> routes[i] in routes;
      assert groups[..|was|] == groups[..|groups| - 1];
      SameTogether(was, groups[..|was|]);
    }
  }

  lemma GroupGrows(t: Tables, before: seq<string>, rcpt: string, src: Addr, clientRoute: string, clientBits: int,
                   was: seq<Group>, groups: seq<Group>, d: Decision, i: nat)
    requires IsSplit(t, before, src, clientRoute, clientBits, was) && i < |was|
    requires Resolve(t, rcpt, src, clientRoute, clientBits) == Some(d)
    requires IsSplit(t, before + [rcpt], src, clientRoute, clientBits, groups)
    ensures i < |groups| && groups[i].route == was[i].route
    ensures groups[i].recipients == was[i].recipients + (if was[i].route == d.route then [rcpt] else [])
  {
    assert (before + [rcpt])[..|before|] == before;
  }

  lemma {:induction false} SameTogether(a: seq<Group>, b: seq<Group>)
    requires |a| == |b| && forall i :: 0 <= i < |a| ==> a[i].recipients == b[i].recipients
    ensures Together(a) == Together(b)
  {
    if a != [] {
      SameTogether(a[..|a| - 1], b[..|b| - 1]);
    }
  }

  lemma {:induction false} TogetherUpdated(a: seq<Group>, b: seq<Group>, k: nat, rcpt: string)
    requires |a| == |b| && k < |a|
    requires forall i :: 0 <= i < |a| && i != k ==> a[i].recipients == b[i].recipients
    requires b[k].recipients == a[k].recipients + [rcpt]
    ensures Together(b) == Together(a) + multiset{rcpt}
  {
    var n := |a| - 1;
    var a', b' := a[..n], b[..n];
    if k == n {
      SameTogether(a', b');
      LastGrows(Together(a'), a[n].recipients, rcpt);
    } else {
      assert a'[k] == a[k] && b'[k] == b[k];
      TogetherUpdated(a', b', k, rcpt);
      OthersStay(Together(a'), a[n].recipients, rcpt);
    }
  }

  lemma LastGrows(before: multiset<string>, s: seq<string>, x: string)
    ensures before + multiset(s + [x]) == before + multiset(s) + multiset{x}
  {
    assert multiset(s + [x]) == multiset(s) + multiset{x};
  }

  lemma OthersStay(before: multiset<string>, s: seq<string>, x: string)
    ensures before + multiset{x} + multiset(s) == before + multiset(s) + multiset{x}
  {
  }
}
