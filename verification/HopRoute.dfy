/** The hops of a host: the route walk of the channel handler, the dials along the route, and the commands
    that change the hop graph. */
module HopRoute {
  import opened Common

  /** `hopId` is zero for a host without a hop. */
  datatype Host = Host(name: string, hopId: nat)

  type Hosts = map<nat, Host>

  /** Ids are positive, names are unique and not empty. */
  ghost predicate Named(db: Hosts) {
    && 0 !in db
    && (forall id | id in db :: db[id].name != "")
    && (forall a, b | a in db && b in db && db[a].name == db[b].name :: a == b)
  }

  /** `HostByName`: a host with an empty name is not found. */
  ghost function HostByName(db: Hosts, name: string): Option<nat> {
    if name != "" && exists id :: id in db && db[id].name == name
    then (var id :| id in db && db[id].name == name; Some(id))
    else None
  }

  /** The next host of the walk: the name of the row with id `HopID` is looked up again; a dangling `HopID`
      gives an empty name, so the walk ends there. */
  ghost function NextHost(db: Hosts, id: nat): Option<nat>
    requires id in db
  {
    if db[id].hopId == 0 then None
    else HostByName(db, if db[id].hopId in db then db[db[id].hopId].name else "")
  }

  /** The hop of a host in the graph. */
  function Hop(db: Hosts, id: nat): Option<nat>
    requires id in db
  {
    if db[id].hopId in db then Some(db[id].hopId) else None
  }

  lemma NextHostIsHop(db: Hosts, id: nat)
    requires Named(db) && id in db
    ensures NextHost(db, id) == Hop(db, id)
  {
  }

  /** The hop chain of `c[0]`. */
  ghost predicate IsChain(db: Hosts, c: seq<nat>) {
    && c != []
    && (forall i | 0 <= i < |c| :: c[i] in db)
    && (forall i | 0 <= i < |c| - 1 :: Hop(db, c[i]) == Some(c[i + 1]))
    && Hop(db, c[|c| - 1]) == None
  }

  ghost predicate ChainOf(db: Hosts, id: nat, c: seq<nat>) {
    IsChain(db, c) && c[0] == id
  }

  /** The walk from `id` ends. */
  ghost predicate Ends(db: Hosts, id: nat) {
    exists c :: ChainOf(db, id, c)
  }

  /** What `bastionClientConfig` finds for a host: whether a client configuration could be made, and the action
      of the access check of that host. */
  datatype Check = Check(config: bool, action: string) {
    predicate Passes() {
      config && action == "allow"
    }
  }

  function Reverse(s: seq<nat>): (r: seq<nat>)
    ensures |r| == |s|
    ensures forall i | 0 <= i < |s| :: r[i] == s[|s| - 1 - i]
  {
    if s == [] then [] else Reverse(s[1..]) + [s[0]]
  }

  lemma ReverseSnoc(s: seq<nat>, x: nat)
    ensures Reverse(s + [x]) == [x] + Reverse(s)
  {
  }

  /** The two queries at the end of the loop's body. */
  method FindNext(db: Hosts, id: nat) returns (next: Option<nat>)
    requires Named(db) && id in db
    ensures next == NextHost(db, id) == Hop(db, id)
  {
    NextHostIsHop(db, id);
    if db[id].hopId == 0 {
      return None;
    }
    var name := if db[id].hopId in db then db[db[id].hopId].name else "";
    var found := set x | x in db && db[x].name == name;
    assert forall x | x in db && db[x].name == name :: x in found;
    if name == "" || found == {} {
      return None;
    }
    var x :| x in found;
    next := Some(x);
  }

  /** Hosts each of which is the hop of the one before. */
  ghost predicate IsPath(db: Hosts, p: seq<nat>) {
    && p != []
    && (forall i | 0 <= i < |p| :: p[i] in db)
    && (forall i | 0 <= i < |p| - 1 :: Hop(db, p[i]) == Some(p[i + 1]))
  }

  /** Where the walk stops after looking at `id`. */
  ghost predicate StopsAt(db: Hosts, checks: nat -> Check, id: nat)
    requires id in db
  {
    !checks(id).Passes() || Hop(db, id).None?
  }

  /** The hosts that the walk looks at: it goes on from a host that passes its check and has a hop. */
  ghost predicate IsWalk(db: Hosts, start: nat, checks: nat -> Check, p: seq<nat>) {
    && IsPath(db, p) && p[0] == start
    && (forall i | 0 <= i < |p| - 1 :: checks(p[i]).Passes())
    && StopsAt(db, checks, p[|p| - 1])
  }

  /** The loop of the channel handler.  It prepends one configuration for each hop, so the route it builds is
      the reverse of the hop chain; it gives up at the first host whose check fails. */
  method Walk(db: Hosts, start: nat, checks: nat -> Check, ghost path: seq<nat>) returns (route: Option<seq<nat>>)
    requires Named(db) && IsWalk(db, start, checks, path)
    ensures route.Some? <==> checks(path[|path| - 1]).Passes()
    ensures route.Some? <==> forall id | id in path :: checks(id).config && checks(id).action == "allow"
    ensures route.Some? ==> ChainOf(db, start, path) && route.value == Reverse(path)
  {
    assert path[|path| - 1] in path;
    var current, configs := Some(start), [];
    ghost var i := 0;
    while current.Some?
      invariant 0 <= i <= |path|
      invariant current == if i < |path| then Some(path[i]) else None
      invariant configs == Reverse(path[..i])
      invariant forall k | 0 <= k < i :: checks(path[k]).Passes()
      decreases |path| - i
    {
      var host := current.value;
      if !checks(host).Passes() {
        return None;
      }
      configs := [host] + configs;
      ReverseSnoc(path[..i], host);
      assert path[..i + 1] == path[..i] + [host];
      current := FindNext(db, host);
      i := i + 1;
    }
    assert path[..i] == path;
    route := Some(configs);
  }

  /** The walk from a host ends exactly when its hop chain does or a host along it fails its check. */
  lemma WalkEnds(db: Hosts, start: nat, checks: nat -> Check)
    ensures (exists p :: IsWalk(db, start, checks, p)) <==>
              || Ends(db, start)
              || exists q :: IsPath(db, q) && q[0] == start && !checks(q[|q| - 1]).Passes()
  {
    if p :| IsWalk(db, start, checks, p) && checks(p[|p| - 1]).Passes() {
      assert ChainOf(db, start, p);
    }
    if c :| ChainOf(db, start, c) {
      var p := FirstStop(db, checks, c);
    }
    if q :| IsPath(db, q) && q[0] == start && !checks(q[|q| - 1]).Passes() {
      var p := FirstStop(db, checks, q);
    }
  }

  lemma {:induction false} FirstStop(db: Hosts, checks: nat -> Check, q: seq<nat>) returns (p: seq<nat>)
    requires IsPath(db, q) && StopsAt(db, checks, q[|q| - 1])
    ensures IsWalk(db, q[0], checks, p) && p <= q
  {
    if |q| == 1 || !checks(q[0]).Passes() {
      p := [q[0]];
    } else {
      assert Hop(db, q[0]) == Some(q[1]);
      p := FirstStop(db, checks, q[1..]);
      p := [q[0]] + p;
      assert q == [q[0]] + q[1..];
    }
  }

  /** A walk looks at no host off the hop chain. */
  lemma {:induction false} WalkWithinChain(db: Hosts, checks: nat -> Check, p: seq<nat>, c: seq<nat>)
    requires IsPath(db, p) && IsChain(db, c) && p[0] == c[0]
    ensures p <= c
  {
    if |p| > 1 {
      assert Hop(db, p[0]) == Some(p[1]);
      assert |c| > 1 && c[1] == p[1];
      ChainTail(db, c);
      assert IsPath(db, p[1..]);
      WalkWithinChain(db, checks, p[1..], c[1..]);
      assert p == [p[0]] + p[1..] && c == [c[0]] + c[1..];
    }
  }

  /** The hop that is configured is not in the table. */
  predicate Dangling(db: Hosts, id: nat)
    requires id in db
  {
    db[id].hopId != 0 && db[id].hopId !in db
  }

  predicate HasHop(db: Hosts, id: nat, hop: nat) {
    id in db && db[id].hopId == hop && hop != 0
  }

  /** The hops as they are configured, up to a host without one or not in the table. */
  ghost predicate IsConfigured(db: Hosts, c: seq<nat>) {
    && c != []
    && (forall i | 0 <= i < |c| - 1 :: HasHop(db, c[i], c[i + 1]))
    && (c[|c| - 1] in db ==> db[c[|c| - 1]].hopId == 0)
  }

  /** The hosts of a route are those that are configured, exactly when none of them has a hop that is gone; otherwise
      they are all but the last of them. */
  lemma {:induction false} RouteCoversConfigured(db: Hosts, c: seq<nat>, conf: seq<nat>)
    requires 0 !in db && IsChain(db, c) && IsConfigured(db, conf) && c[0] == conf[0]
    ensures c == conf <==> forall id | id in c :: !Dangling(db, id)
    ensures c == conf || c == conf[..|conf| - 1]
  {
    if |c| > 1 {
      assert Hop(db, c[0]) == Some(c[1]);
      assert |conf| > 1 && HasHop(db, conf[0], conf[1]);
      ChainTail(db, c);
      RouteCoversConfigured(db, c[1..], conf[1..]);
      assert c == [c[0]] + c[1..] && conf == [conf[0]] + conf[1..];
      assert forall id :: id in c <==> id == c[0] || id in c[1..];
      assert conf[..|conf| - 1] == [conf[0]] + conf[1..][..|conf| - 2];
    } else {
      assert c == [c[0]];
      if |conf| > 1 {
        assert HasHop(db, conf[0], conf[1]);
        assert |conf| > 2 ==> HasHop(db, conf[1], conf[2]);
      }
      assert c[0] in c && (Dangling(db, c[0]) <==> |conf| > 1);
    }
  }

  /** A route: the requested host is last, and each host before another is that one's hop. */
  lemma RouteShape(db: Hosts, start: nat, chain: seq<nat>)
    requires ChainOf(db, start, chain)
    ensures var route := Reverse(chain);
            && route != [] && route[|route| - 1] == start
            && (forall i | 0 <= i < |route| :: route[i] in db)
            && Hop(db, route[0]) == None
            && forall i | 0 < i < |route| :: Hop(db, route[i]) == Some(route[i - 1])
  {
    var route := Reverse(chain);
    forall i | 0 < i < |route|
      ensures Hop(db, route[i]) == Some(route[i - 1])
    {
      var j := |chain| - 1 - i;
      assert route[i] == chain[j] && route[i - 1] == chain[j + 1];
    }
  }

  // ---- dialling -----------------------------------------------------------------------------------

  /** A connection attempt: direct, or through the client connected to another host. */
  datatype Dial = Dial(through: Option<nat>, to: nat)

  datatype DialResult = Dialled(attempts: seq<Dial>, connected: bool, channelClosed: bool)

  /** The dial loop.  `reachable(i)` says whether the i-th connection and its handshake succeed.  On a failure
      the client's channel is closed only if it is the first dial that fails. */
  method DialHops(route: seq<nat>, reachable: nat -> bool) returns (r: DialResult)
    ensures |r.attempts| <= |route|
    ensures forall i | 0 <= i < |r.attempts| ::
              r.attempts[i] == Dial(if i == 0 then None else Some(route[i - 1]), route[i])
    ensures r.connected <==> forall i | 0 <= i < |route| :: reachable(i)
    ensures r.connected ==> |r.attempts| == |route|
    ensures !r.connected ==> r.attempts != [] && !reachable(|r.attempts| - 1)
                             && forall i | 0 <= i < |r.attempts| - 1 :: reachable(i)
    ensures r.channelClosed <==> !r.connected && |r.attempts| == 1
  {
    var attempts, lastClient := [], None;
    var i := 0;
    while i < |route|
      invariant 0 <= i <= |route| && |attempts| == i
      invariant lastClient == if i == 0 then None else Some(route[i - 1])
      invariant forall j | 0 <= j < i :: attempts[j] == Dial(if j == 0 then None else Some(route[j - 1]), route[j])
      invariant forall j | 0 <= j < i :: reachable(j)
    {
      attempts := attempts + [Dial(lastClient, route[i])];
      if !reachable(i) {
        return Dialled(attempts, false, lastClient.None?);
      }
      lastClient := Some(route[i]);
      i := i + 1;
    }
    r := Dialled(attempts, true, false);
  }

  // ---- when the walk ends ---------------------------------------------------------------------------

  ghost predicate Ranked(db: Hosts, rank: map<nat, nat>) {
    forall id | id in db ::
      id in rank && (Hop(db, id).Some? ==> Hop(db, id).value in rank && rank[Hop(db, id).value] < rank[id])
  }

  ghost predicate Acyclic(db: Hosts) {
    exists rank :: Ranked(db, rank)
  }

  lemma {:induction false} ChainTail(db: Hosts, c: seq<nat>)
    requires IsChain(db, c) && |c| > 1
    ensures ChainOf(db, c[1], c[1..])
  {
  }

  lemma ChainHead(db: Hosts, id: nat, c: seq<nat>)
    requires id in db && IsChain(db, c) && Hop(db, id) == Some(c[0])
    ensures ChainOf(db, id, [id] + c)
  {
  }

  lemma {:induction false} ChainUnique(db: Hosts, c: seq<nat>, d: seq<nat>)
    requires IsChain(db, c) && IsChain(db, d) && c[0] == d[0]
    ensures c == d
  {
    assert |c| > 1 ==> Hop(db, c[0]) == Some(c[1]);
    assert |d| > 1 ==> Hop(db, d[0]) == Some(d[1]);
    if |c| > 1 {
      ChainTail(db, c);
      ChainTail(db, d);
      ChainUnique(db, c[1..], d[1..]);
      assert c == [c[0]] + c[1..] && d == [d[0]] + d[1..];
    }
  }

  lemma {:induction false} RankedEnds(db: Hosts, rank: map<nat, nat>, id: nat) returns (c: seq<nat>)
    requires Ranked(db, rank) && id in db
    ensures ChainOf(db, id, c)
    decreases rank[id]
  {
    if Hop(db, id).None? {
      c := [id];
    } else {
      c := RankedEnds(db, rank, Hop(db, id).value);
      ChainHead(db, id, c);
      c := [id] + c;
    }
  }

  /** The walk ends from every host exactly when the hops have no cycle. */
  lemma AllEnd(db: Hosts)
    ensures Acyclic(db) <==> forall id | id in db :: Ends(db, id)
  {
    if Acyclic(db) {
      var rank :| Ranked(db, rank);
      forall id | id in db
        ensures Ends(db, id)
      {
        var c := RankedEnds(db, rank, id);
      }
    }
    if forall id | id in db :: Ends(db, id) {
      var rank := map id | id in db :: Length(db, id);
      forall id | id in db && Hop(db, id).Some?
        ensures rank[Hop(db, id).value] < rank[id]
      {
        var c :| ChainOf(db, id, c);
        ChainTail(db, c);
        LengthIs(db, id, c);
        LengthIs(db, c[1], c[1..]);
      }
      assert Ranked(db, rank);
    }
  }

  ghost function Length(db: Hosts, id: nat): (n: nat)
    requires Ends(db, id)
    ensures exists c :: ChainOf(db, id, c) && |c| == n
  {
    var c :| ChainOf(db, id, c);
    |c|
  }

  lemma LengthIs(db: Hosts, id: nat, c: seq<nat>)
    requires ChainOf(db, id, c)
    ensures Ends(db, id) && Length(db, id) == |c|
  {
    forall d | ChainOf(db, id, d)
      ensures d == c
    {
      ChainUnique(db, c, d);
    }
  }

  /** If ids strictly decrease along hops, the walk always ends. */
  lemma DecreasingIds(db: Hosts)
    requires forall id | id in db && Hop(db, id).Some? :: Hop(db, id).value < id
    ensures Acyclic(db)
  {
    assert Ranked(db, map id | id in db :: id);
  }

  // ---- commands that change the hop graph -------------------------------------------------------------

  /** Whether the walk from `id` visits `x`. */
  ghost predicate Visits(db: Hosts, id: nat, x: nat) {
    exists c :: ChainOf(db, id, c) && x in c
  }

  lemma VisitsStep(db: Hosts, id: nat, x: nat)
    requires id in db && id != x && Hop(db, id).Some?
    ensures Visits(db, id, x) <==> Visits(db, Hop(db, id).value, x)
  {
    var next := Hop(db, id).value;
    if Visits(db, id, x) {
      var c :| ChainOf(db, id, c) && x in c;
      ChainTail(db, c);
      assert c == [id] + c[1..] && x in c[1..];
    }
    if Visits(db, next, x) {
      var c :| ChainOf(db, next, c) && x in c;
      ChainHead(db, id, c);
      assert x in [id] + c;
    }
  }

  function WithHop(db: Hosts, id: nat, hop: nat): Hosts
    requires id in db
  {
    db[id := db[id].(hopId := hop)]
  }

  /** Setting the hop of `id` to `hop` keeps the graph without cycles exactly when the walk from `hop` does not
      visit `id`: the test that `host update --hop` does not make. */
  lemma SetHopAcyclic(db: Hosts, id: nat, hop: nat)
    requires Acyclic(db) && id in db && hop in db
    ensures Acyclic(WithHop(db, id, hop)) <==> !Visits(db, hop, id)
  {
    if Visits(db, hop, id) {
      CycleHasNoRank(db, id, hop);
    } else {
      RaiseRanks(db, id, hop);
    }
  }

  lemma RaiseRanks(db: Hosts, id: nat, hop: nat)
    requires Acyclic(db) && id in db && hop in db && !Visits(db, hop, id)
    ensures Acyclic(WithHop(db, id, hop))
  {
    var rank :| Ranked(db, rank);
    var after := WithHop(db, id, hop);
    var raised := map y | y in db :: rank[y] + if Visits(db, y, id) then rank[hop] + 1 else 0;
    var c := RankedEnds(db, rank, id);
    assert Visits(db, id, id);
    forall y | y in after
      ensures Hop(after, y).Some? ==> raised[Hop(after, y).value] < raised[y]
    {
      if y != id && Hop(db, y).Some? {
        VisitsStep(db, y, id);
      }
    }
    assert Ranked(after, raised);
  }

  lemma CycleHasNoRank(db: Hosts, id: nat, hop: nat)
    requires id in db && hop in db && Visits(db, hop, id)
    ensures !Acyclic(WithHop(db, id, hop))
  {
    var after := WithHop(db, id, hop);
    if Acyclic(after) {
      var rank :| Ranked(after, rank);
      var c :| ChainOf(db, hop, c) && id in c;
      RankDown(db, id, hop, rank, c);
    }
  }

  /** Along the chain from the new hop down to `id` the ranks do not rise. */
  lemma {:induction false} RankDown(db: Hosts, id: nat, hop: nat, rank: map<nat, nat>, c: seq<nat>)
    requires id in db && hop in db && Ranked(WithHop(db, id, hop), rank)
    requires IsChain(db, c) && id in c
    ensures rank[id] <= rank[c[0]]
  {
    if c[0] != id {
      ChainTail(db, c);
      assert c == [c[0]] + c[1..];
      RankDown(db, id, hop, rank, c[1..]);
      assert Hop(WithHop(db, id, hop), c[0]) == Some(c[1]);
    }
  }

  datatype Command =
    | Create(id: nat, name: string, hop: Option<string>)   // host create, with the id that the database assigns
    | SetHop(id: nat, hopName: string)                     // host update --hop
    | UnsetHop(id: nat)                                    // host update --unset-hop
    | Rename(id: nat, newName: string)                     // host update --name
    | Remove(id: nat)                                      // host rm

  ghost predicate NameFree(db: Hosts, name: string) {
    name != "" && forall x | x in db :: db[x].name != name
  }

  /** The host table after a command; a command that fails changes nothing. */
  ghost function Execute(db: Hosts, cmd: Command): Hosts {
    match cmd
    case Create(id, name, hop) =>
      if !NameFree(db, name) || (hop.Some? && hop.value != "" && HostByName(db, hop.value).None?) then db
      else db[id := Host(name, if hop.Some? && hop.value != "" then HostByName(db, hop.value).value else 0)]
    case SetHop(id, hopName) =>
      if id in db && HostByName(db, hopName).Some? then WithHop(db, id, HostByName(db, hopName).value) else db
    case UnsetHop(id) => if id in db then WithHop(db, id, 0) else db
    case Rename(id, newName) =>
      if id in db && NameFree(db, newName) then db[id := db[id].(name := newName)] else db
    case Remove(id) => db - {id}
  }

  lemma HostByNameIs(db: Hosts, name: string, id: nat)
    requires Named(db)
    ensures HostByName(db, name) == Some(id) <==> id in db && db[id].name == name
  {
  }

  /** All rows but that of `id` are as they were. */
  ghost predicate OthersSame(db: Hosts, after: Hosts, id: nat) {
    forall x | x != id :: (x in after <==> x in db) && (x in db && x in after ==> after[x] == db[x])
  }

  lemma OnlyOneNamed(after: Hosts, name: string, id: nat)
    requires name != "" && id in after && after[id].name == name
    requires forall x | x in after && x != id :: after[x].name != name
    ensures HostByName(after, name) == Some(id)
  {
  }

  /** What `host create` does, as later lookups see it. */
  lemma CreateEffect(db: Hosts, id: nat, name: string, hop: Option<string>)
    requires Named(db) && id > 0 && id !in db
    ensures var after := Execute(db, Create(id, name, hop));
            var named := hop.Some? && hop.value != "";
            if name == "" || HostByName(db, name).Some? || (named && HostByName(db, hop.value).None?) then after == db
            else
              && OthersSame(db, after, id) && HostByName(after, name) == Some(id)
              && after[id].hopId == if named then HostByName(db, hop.value).value else 0
  {
    var after := Execute(db, Create(id, name, hop));
    if after != db {
      OnlyOneNamed(after, name, id);
    }
  }

  lemma RenameEffect(db: Hosts, id: nat, newName: string)
    requires Named(db)
    ensures var after := Execute(db, Rename(id, newName));
            if id !in db || newName == "" || HostByName(db, newName).Some? then after == db
            else
              && OthersSame(db, after, id) && HostByName(after, newName) == Some(id)
              && after[id].hopId == db[id].hopId
  {
    var after := Execute(db, Rename(id, newName));
    if after != db {
      OnlyOneNamed(after, newName, id);
    }
  }

  /** `host update --hop` and `--unset-hop`, and `host rm`. */
  lemma HopEffects(db: Hosts, id: nat, hopName: string)
    requires Named(db)
    ensures var after := Execute(db, SetHop(id, hopName));
            if id !in db || HostByName(db, hopName).None? then after == db
            else
              && OthersSame(db, after, id) && id in after && after[id].name == db[id].name
              && Hop(after, id) == HostByName(db, hopName)
    ensures var after := Execute(db, UnsetHop(id));
            if id !in db then after == db
            else OthersSame(db, after, id) && id in after && after[id].name == db[id].name && ChainOf(after, id, [id])
    ensures var after := Execute(db, Remove(id)); OthersSame(db, after, id) && id !in after
  {
  }

  /** The walk from `from` ends at a host whose hop is configured as `id`, and missing. */
  ghost predicate LeadsTo(db: Hosts, from: nat, id: nat) {
    exists c :: ChainOf(db, from, c) && db[c[|c| - 1]].hopId == id
  }

  /** A host without a hop makes no cycle, even if other hosts still have its id as their hop. */
  lemma CreateSink(db: Hosts, id: nat, name: string)
    requires 0 !in db && Acyclic(db) && id > 0 && id !in db
    ensures Acyclic(db[id := Host(name, 0)])
  {
    var rank :| Ranked(db, rank);
    var after := db[id := Host(name, 0)];
    var raised := map x | x in after :: if x == id then 0 else rank[x] + 1;
    forall x | x in after
      ensures Hop(after, x).Some? ==> raised[Hop(after, x).value] < raised[x]
    {
      assert x != id && Hop(after, x).Some? && Hop(after, x).value != id ==> Hop(after, x) == Hop(db, x);
    }
    assert Ranked(after, raised);
  }

  lemma {:induction false} ChainBeforeSink(db: Hosts, id: nat, name: string, c: seq<nat>)
    requires 0 !in db && id > 0 && id !in db && IsChain(db, c)
    ensures var after := db[id := Host(name, 0)];
            if db[c[|c| - 1]].hopId == id then IsChain(after, c + [id]) else IsChain(after, c)
  {
    var after := db[id := Host(name, 0)];
    forall i | 0 <= i < |c| - 1
      ensures Hop(after, c[i]) == Some(c[i + 1])
    {
      assert Hop(db, c[i]) == Some(c[i + 1]);
    }
  }

  /** Where the walk from `from` visits the new host. */
  lemma SinkVisited(db: Hosts, id: nat, name: string, from: nat)
    requires 0 !in db && Acyclic(db) && id > 0 && id !in db && from in db
    ensures Visits(db[id := Host(name, 0)], from, id) <==> LeadsTo(db, from, id)
  {
    var after := db[id := Host(name, 0)];
    var rank :| Ranked(db, rank);
    var c := RankedEnds(db, rank, from);
    ChainBeforeSink(db, id, name, c);
    if db[c[|c| - 1]].hopId == id {
      assert id in c + [id];
    } else if Visits(after, from, id) {
      var d :| ChainOf(after, from, d) && id in d;
      ChainUnique(after, c, d);
    }
    if LeadsTo(db, from, id) {
      var d :| ChainOf(db, from, d) && db[d[|d| - 1]].hopId == id;
      ChainUnique(db, c, d);
    }
  }

  /** A new host with a hop leaves the graph without cycles exactly when the walk from its hop does not end at a host
      whose own hop was removed and had the id that the new host gets. */
  lemma CreateAcyclic(db: Hosts, id: nat, name: string, hop: nat)
    requires 0 !in db && Acyclic(db) && id > 0 && id !in db && hop in db
    ensures Acyclic(db[id := Host(name, hop)]) <==> !LeadsTo(db, hop, id)
  {
    CreateSink(db, id, name);
    SetHopAcyclic(db[id := Host(name, 0)], id, hop);
    SinkVisited(db, id, name, hop);
    assert WithHop(db[id := Host(name, 0)], id, hop) == db[id := Host(name, hop)];
  }

  /** The database assigns a positive id that no host has, and not one that the walk from the new host's hop is missing;
      `--hop` is given a host whose own walk does not visit the host updated. */
  ghost predicate Guarded(db: Hosts, cmd: Command) {
    match cmd
    case Create(id, _, hop) =>
      && id > 0 && id !in db
      && (hop.Some? && HostByName(db, hop.value).Some? ==> !LeadsTo(db, HostByName(db, hop.value).value, id))
    case SetHop(id, hopName) =>
      id in db && HostByName(db, hopName).Some? ==> !Visits(db, HostByName(db, hopName).value, id)
    case _ => true
  }

  ghost predicate Valid(db: Hosts) {
    Named(db) && Acyclic(db)
  }

  lemma CreateKeepsValid(db: Hosts, cmd: Command)
    requires Valid(db) && cmd.Create? && Guarded(db, cmd)
    ensures Valid(Execute(db, cmd))
  {
    if Execute(db, cmd) != db {
      if cmd.hop.Some? && cmd.hop.value != "" {
        CreateAcyclic(db, cmd.id, cmd.name, HostByName(db, cmd.hop.value).value);
      } else {
        CreateSink(db, cmd.id, cmd.name);
      }
    }
  }

  /** Every command that meets its guard keeps names unique and hops without cycles. */
  lemma CommandKeepsValid(db: Hosts, cmd: Command)
    requires Valid(db) && Guarded(db, cmd)
    ensures Valid(Execute(db, cmd))
  {
    var rank :| Ranked(db, rank);
    match cmd
    case Create(_, _, _) => CreateKeepsValid(db, cmd);
    case SetHop(id, hopName) =>
      if id in db && HostByName(db, hopName).Some? {
        SetHopAcyclic(db, id, HostByName(db, hopName).value);
      }
    case _ => assert Ranked(Execute(db, cmd), rank);
  }

  ghost predicate GuardedRun(db: Hosts, cmds: seq<Command>)
    decreases |cmds|
  {
    cmds == [] || (Guarded(db, cmds[0]) && GuardedRun(Execute(db, cmds[0]), cmds[1..]))
  }

  ghost function Run(db: Hosts, cmds: seq<Command>): Hosts
    decreases |cmds|
  {
    if cmds == [] then db else Run(Execute(db, cmds[0]), cmds[1..])
  }

  lemma {:induction false} RunKeepsValid(db: Hosts, cmds: seq<Command>)
    requires Valid(db) && GuardedRun(db, cmds)
    ensures Valid(Run(db, cmds))
    decreases |cmds|
  {
    if cmds != [] {
      CommandKeepsValid(db, cmds[0]);
      RunKeepsValid(Execute(db, cmds[0]), cmds[1..]);
    }
  }

  /** After any guarded run of the commands from an empty table, the walk from every host ends. */
  lemma EveryWalkEnds(cmds: seq<Command>, id: nat)
    requires GuardedRun(map[], cmds) && id in Run(map[], cmds)
    ensures Ends(Run(map[], cmds), id)
  {
    assert Ranked(map[], map[]);
    RunKeepsValid(map[], cmds);
    AllEnd(Run(map[], cmds));
  }

  // ---- ids that decrease along hops -------------------------------------------------------------------

  /** Hops have smaller ids, also those that are missing. */
  ghost predicate Decreasing(db: Hosts) {
    0 !in db && forall x | x in db :: db[x].hopId < x
  }

  /** A new id is above all others, and `--hop` is given a host with a smaller id than the host updated. */
  ghost predicate Descends(db: Hosts, cmd: Command) {
    match cmd
    case Create(id, _, _) => id > 0 && forall x | x in db :: x < id
    case SetHop(id, hopName) => id in db && HostByName(db, hopName).Some? ==> HostByName(db, hopName).value < id
    case _ => true
  }

  lemma CommandKeepsDecreasing(db: Hosts, cmd: Command)
    requires Decreasing(db) && Descends(db, cmd)
    ensures Decreasing(Execute(db, cmd))
  {
  }

  ghost predicate DescendingRun(db: Hosts, cmds: seq<Command>)
    decreases |cmds|
  {
    cmds == [] || (Descends(db, cmds[0]) && DescendingRun(Execute(db, cmds[0]), cmds[1..]))
  }

  /** With each new id above all present ones, every run of creating, renaming, removing and unsetting hops keeps ids
      decreasing, so there is no cycle and the walk from every host ends, whatever has been removed. */
  lemma {:induction false} DescendingWalksEnd(db: Hosts, cmds: seq<Command>, id: nat)
    requires Decreasing(db) && DescendingRun(db, cmds)
    ensures Decreasing(Run(db, cmds)) && Acyclic(Run(db, cmds))
    ensures id in Run(db, cmds) ==> Ends(Run(db, cmds), id)
    decreases |cmds|
  {
    if cmds == [] {
      DecreasingIds(db);
      AllEnd(db);
    } else {
      CommandKeepsDecreasing(db, cmds[0]);
      DescendingWalksEnd(Execute(db, cmds[0]), cmds[1..], id);
    }
  }

  // ---- cycles -----------------------------------------------------------------------------------------

  /** Two hosts that are each other's hop. */
  lemma TwoCycleNeverEnds(db: Hosts, a: nat, b: nat)
    requires a in db && b in db && Hop(db, a) == Some(b) && Hop(db, b) == Some(a)
    ensures !Acyclic(db) && !Ends(db, a) && !Ends(db, b)
  {
    forall c | c != [] && (c[0] == a || c[0] == b)
      ensures !IsChain(db, c)
    {
      NoChainInTwoCycle(db, a, b, c);
    }
    AllEnd(db);
  }

  lemma {:induction false} NoChainInTwoCycle(db: Hosts, a: nat, b: nat, c: seq<nat>)
    requires a in db && b in db && Hop(db, a) == Some(b) && Hop(db, b) == Some(a)
    requires c != [] && (c[0] == a || c[0] == b)
    ensures !IsChain(db, c)
  {
    if |c| > 1 && Hop(db, c[0]) == Some(c[1]) {
      NoChainInTwoCycle(db, a, b, c[1..]);
      if IsChain(db, c) {
        ChainTail(db, c);
      }
    }
  }

  lemma RunCons(db: Hosts, cmds: seq<Command>, next: Hosts, rest: seq<Command>)
    requires cmds != [] && rest == cmds[1..] && next == Execute(db, cmds[0]) && Guarded(db, cmds[0])
    ensures Run(db, cmds) == Run(next, rest) && (GuardedRun(next, rest) ==> GuardedRun(db, cmds))
  {
  }

  /** Host 1 is left with a hop that was removed. */
  lemma RemovedHop() returns (cmds: seq<Command>)
    ensures GuardedRun(map[], cmds) && Run(map[], cmds) == map[1 := Host("a", 2)]
  {
    var a, b, c := Host("a", 0), Host("b", 0), Host("a", 2);
    var d1, d2, d3, d4 := map[1 := a], map[1 := a, 2 := b], map[1 := c, 2 := b], map[1 := c];
    var c1, c2, c3, c4 := Create(1, "a", None), Create(2, "b", None), SetHop(1, "b"), Remove(2);
    cmds := [c1, c2, c3, c4];
    assert HostByName(d2, "b") == Some(2) by {
      assert d2[2].name == "b";
    }
    forall chain | ChainOf(d2, 2, chain)
      ensures 1 !in chain
    {
      assert IsChain(d2, [2]);
      ChainUnique(d2, chain, [2]);
    }
    RunCons(map[], cmds, d1, [c2, c3, c4]);
    RunCons(d1, [c2, c3, c4], d2, [c3, c4]);
    RunCons(d2, [c3, c4], d3, [c4]);
    RunCons(d3, [c4], d4, []);
  }

  /** The guard of `host create` is needed: removing a host that is a hop, and creating one that gets its id and has
      the first as its hop, makes a cycle although every new id is above all that are present. */
  lemma CreateCanMakeCycle() returns (cmds: seq<Command>, last: Command)
    ensures GuardedRun(map[], cmds) && last.Create? && forall x | x in Run(map[], cmds) :: x < last.id
    ensures var db := Execute(Run(map[], cmds), last);
            db.Keys == {1, 2} && !Acyclic(db) && !Ends(db, 1) && !Ends(db, 2)
  {
    cmds := RemovedHop();
    last := Create(2, "c", Some("a"));
    var before := map[1 := Host("a", 2)];
    assert HostByName(before, "a") == Some(1) by {
      assert before[1].name == "a";
    }
    var db := Execute(before, last);
    assert db == map[1 := Host("a", 2), 2 := Host("c", 1)];
    TwoCycleNeverEnds(db, 1, 2);
  }

  /** Giving a host itself as its hop leaves a walk that never ends. */
  lemma SelfHopNeverEnds(db: Hosts, id: nat)
    requires Valid(db) && id in db
    ensures !Ends(Execute(db, SetHop(id, db[id].name)), id)
  {
    var after := WithHop(db, id, id);
    if Ends(after, id) {
      var c :| ChainOf(after, id, c);
      var d := c;
      while |d| > 1
        invariant ChainOf(after, id, d)
        decreases |d|
      {
        ChainTail(after, d);
        d := d[1..];
      }
    }
  }
}
