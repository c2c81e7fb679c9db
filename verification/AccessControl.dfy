/** The access decision: the ACLs shared by a user's and a host's groups, the lightest of which wins. */
module AccessControl {
  import opened Common

  /** Instants are numbers; `weight` sorts first when small. */
  datatype ACL = ACL(id: nat, action: string, weight: nat, inception: Option<int>, expiration: Option<int>)

  /** A user group or a host group. */
  datatype Group = Group(acls: seq<ACL>)

  const ALLOW := "allow"
  const DENY := "deny"

  /** Strictly inside the time window. */
  predicate Open(a: ACL, now: int) {
    && (a.inception.None? || now > a.inception.value)
    && (a.expiration.None? || now < a.expiration.value)
  }

  function AclsOf(groups: seq<Group>): set<ACL> {
    set g, a | g in groups && a in g.acls :: a
  }

  function IdsOf(groups: seq<Group>): set<nat> {
    set a | a in AclsOf(groups) :: a.id
  }

  /** ACLs are rows: an id has one content. */
  ghost predicate Coherent(groups: seq<Group>) {
    forall a, b | a in AclsOf(groups) && b in AclsOf(groups) && a.id == b.id :: a == b
  }

  /** The ACLs that apply to a user with groups `ugs` on a host with groups `hgs` at `now`. */
  function Eligible(ugs: seq<Group>, hgs: seq<Group>, now: int): set<ACL> {
    set a | a in AclsOf(ugs) && a.id in IdsOf(hgs) && Open(a, now)
  }

  /** The ACLs that apply: in a group of the user and, by id, in a group of the host, after their inception and before
      their expiration. */
  lemma EligibleIff(ugs: seq<Group>, hgs: seq<Group>, now: int, a: ACL)
    ensures a in Eligible(ugs, hgs, now) <==>
              && (exists g :: g in ugs && a in g.acls)
              && (exists h, b :: h in hgs && b in h.acls && b.id == a.id)
              && (a.inception.Some? ==> a.inception.value < now)
              && (a.expiration.Some? ==> now < a.expiration.value)
  {
    if h, b :| h in hgs && b in h.acls && b.id == a.id {
      assert b in AclsOf(hgs);
    }
  }

  ghost predicate Lightest(acls: set<ACL>, a: ACL) {
    a in acls && forall b | b in acls :: a.weight <= b.weight
  }

  /** The decisions that are possible before the hook: the action of some lightest ACL, or deny. */
  ghost predicate Decides(acls: set<ACL>, action: string) {
    if acls == {} then action == DENY else exists a :: Lightest(acls, a) && a.action == action
  }

  // ---- checkACLs --------------------------------------------------------------------------------

  /** The run of the external command, if one is configured. */
  datatype Hook = NoCommand | NotRun | Failed | TimedOut | Printed(output: string)

  function TrimNewline(s: string): string {
    if s != "" && s[|s| - 1] == '\n' then s[..|s| - 1] else s
  }

  /** `checkACLsHook`: the action it returns, and whether it reports an error. */
  function HookAction(hook: Hook, action: string): (string, bool) {
    match hook
    case NoCommand => (action, false)
    case Printed(output) =>
      var out := TrimNewline(output);
      if out == ALLOW then (ALLOW, false) else if out == DENY then (DENY, false) else (action, true)
    case _ => (action, true)
  }

  /** The command printed the word, with or without a newline. */
  predicate Says(hook: Hook, word: string) {
    hook == Printed(word) || hook == Printed(word + "\n")
  }

  lemma TrimIs(output: string, word: string)
    requires word != "" && word[|word| - 1] != '\n'
    ensures TrimNewline(output) == word <==> output == word || output == word + "\n"
  {
    if output != "" && output[|output| - 1] == '\n' {
      assert output == output[..|output| - 1] + "\n";
    }
    assert (word + "\n")[..|word|] == word;
  }

  /** What the hook makes of an action: "allow" and "deny" are taken over, anything else leaves the action, and is an
      error unless there is no command. */
  lemma HookIs(hook: Hook, action: string)
    ensures HookAction(hook, action).0
         == if Says(hook, "allow") then "allow" else if Says(hook, "deny") then "deny" else action
    ensures HookAction(hook, action).1 <==> hook != NoCommand && !Says(hook, "allow") && !Says(hook, "deny")
  {
    if hook.Printed? {
      TrimIs(hook.output, "allow");
      TrimIs(hook.output, "deny");
    }
  }

  /** The hook makes `action` of a possible decision. */
  ghost predicate Grants(acls: set<ACL>, hook: Hook, action: string) {
    exists decided :: Decides(acls, decided) && action == HookAction(hook, decided).0
  }

  lemma InGroup(groups: seq<Group>, i: nat, j: nat)
    requires i < |groups| && j < |groups[i].acls|
    ensures groups[i].acls[j] in AclsOf(groups) && groups[i].acls[j].id in IdsOf(groups)
  {
    assert groups[i] in groups && groups[i].acls[j] in groups[i].acls;
  }

  /** The two inner loops, over the host's groups: every match in the time window stores the user's ACL. */
  method StoreIfShared(m0: map<nat, ACL>, acl: ACL, hgs: seq<Group>, now: int) returns (m: map<nat, ACL>)
    ensures m == if acl.id in IdsOf(hgs) && Open(acl, now) then m0[acl.id := acl] else m0
  {
    m := m0;
    ghost var matched := false;
    for k := 0 to |hgs|
      invariant m == if matched && Open(acl, now) then m0[acl.id := acl] else m0
      invariant matched ==> acl.id in IdsOf(hgs)
      invariant !matched ==> forall x, y | 0 <= x < k && 0 <= y < |hgs[x].acls| :: hgs[x].acls[y].id != acl.id
    {
      for l := 0 to |hgs[k].acls|
        invariant m == if matched && Open(acl, now) then m0[acl.id := acl] else m0
        invariant matched ==> acl.id in IdsOf(hgs)
        invariant !matched ==> forall x, y | 0 <= x < k && 0 <= y < |hgs[x].acls| :: hgs[x].acls[y].id != acl.id
        invariant !matched ==> forall y | 0 <= y < l :: hgs[k].acls[y].id != acl.id
      {
        if acl.id == hgs[k].acls[l].id {
          InGroup(hgs, k, l);
          matched := true;
          if Open(acl, now) {
            m := m[acl.id := acl];
          }
        }
      }
    }
  }

  ghost predicate Stored(m: map<nat, ACL>, hgs: seq<Group>, now: int, a: ACL) {
    a.id in IdsOf(hgs) && Open(a, now) ==> a.id in m
  }

  /** The nested loops that fill the map by id; a later ACL with the same id replaces an earlier one. */
  method SharedAcls(ugs: seq<Group>, hgs: seq<Group>, now: int) returns (m: map<nat, ACL>)
    ensures forall id | id in m :: m[id].id == id && m[id] in Eligible(ugs, hgs, now)
    ensures forall a | a in Eligible(ugs, hgs, now) :: a.id in m
  {
    m := map[];
    for i := 0 to |ugs|
      invariant forall id | id in m :: m[id].id == id && m[id] in Eligible(ugs, hgs, now)
      invariant forall u, v | 0 <= u < i && 0 <= v < |ugs[u].acls| :: Stored(m, hgs, now, ugs[u].acls[v])
    {
      for j := 0 to |ugs[i].acls|
        invariant forall id | id in m :: m[id].id == id && m[id] in Eligible(ugs, hgs, now)
        invariant forall u, v | 0 <= u < i && 0 <= v < |ugs[u].acls| :: Stored(m, hgs, now, ugs[u].acls[v])
        invariant forall v | 0 <= v < j :: Stored(m, hgs, now, ugs[i].acls[v])
      {
        InGroup(ugs, i, j);
        m := StoreIfShared(m, ugs[i].acls[j], hgs, now);
      }
    }
  }

  /** With one content per id the map holds exactly the eligible ACLs. */
  lemma MapIsEligible(m: map<nat, ACL>, ugs: seq<Group>, hgs: seq<Group>, now: int)
    requires Coherent(ugs)
    requires forall id | id in m :: m[id].id == id && m[id] in Eligible(ugs, hgs, now)
    requires forall a | a in Eligible(ugs, hgs, now) :: a.id in m
    ensures m.Values == Eligible(ugs, hgs, now)
  {
    forall a | a in Eligible(ugs, hgs, now)
      ensures a in m.Values
    {
      assert m[a.id] == a;
    }
  }

  predicate ByWeight(s: seq<ACL>) {
    forall i, j | 0 <= i < j < |s| :: s[i].weight <= s[j].weight
  }

  method Swap(a: array<ACL>, i: nat, j: nat)
    requires i < a.Length && j < a.Length
    modifies a
    ensures a[..] == old(a[..])[i := old(a[j])][j := old(a[i])]
    ensures multiset(a[..]) == multiset(old(a[..]))
  {
    a[i], a[j] := a[j], a[i];
  }

  ghost predicate LeastFrom(a: seq<ACL>, i: nat, k: nat) {
    i <= k < |a| && forall x | i <= x < |a| :: a[k].weight <= a[x].weight
  }

  lemma {:induction false} HasLeast(s: seq<ACL>, i: nat) returns (k: nat)
    requires i < |s|
    ensures LeastFrom(s, i, k)
    decreases |s| - i
  {
    k := i;
    if i + 1 < |s| {
      var l := HasLeast(s, i + 1);
      k := if s[l].weight < s[i].weight then l else i;
    }
  }

  /** Some lightest element from `i` on; which of several is left open. */
  method Pick(s: seq<ACL>, i: nat) returns (k: nat)
    requires i < |s|
    ensures LeastFrom(s, i, k)
  {
    ghost var w := HasLeast(s, i);
    k :| i <= k < |s| && forall x | i <= x < |s| :: s[k].weight <= s[x].weight;
  }

  /** The first `i` elements are in order and none is heavier than a later one. */
  ghost predicate SortedUpTo(s: seq<ACL>, i: nat) {
    forall x, y | 0 <= x < y < |s| && x < i :: s[x].weight <= s[y].weight
  }

  lemma SwapKeepsOrder(s: seq<ACL>, i: nat, k: nat)
    requires LeastFrom(s, i, k) && SortedUpTo(s, i)
    ensures SortedUpTo(s[i := s[k]][k := s[i]], i + 1)
  {
  }

  /** `sort.Sort` with `Swap` on the slice.  As the choice among equal weights is left open, every order that an
      unstable sort can end in is an outcome. */
  method SortByWeight(a: array<ACL>)
    modifies a
    ensures ByWeight(a[..]) && multiset(a[..]) == multiset(old(a[..]))
  {
    var i := 0;
    while i < a.Length
      invariant 0 <= i <= a.Length
      invariant SortedUpTo(a[..], i) && multiset(a[..]) == multiset(old(a[..]))
    {
      var k := Pick(a[..], i);
      SwapKeepsOrder(a[..], i, k);
      Swap(a, i, k);
      i := i + 1;
    }
  }

  /** `checkACLs`: map iteration order and the unstable sort leave open which lightest ACL comes first. */
  method CheckACLs(ugs: seq<Group>, hgs: seq<Group>, now: int, hook: Hook) returns (action: string)
    ensures Coherent(ugs) ==> Grants(Eligible(ugs, hgs, now), hook, action)
  {
    var m := SharedAcls(ugs, hgs, now);
    if |m| == 0 {
      action := HookAction(hook, DENY).0;
      assert Eligible(ugs, hgs, now) == {} by {
        assert forall a | a in Eligible(ugs, hgs, now) :: a.id in m;
      }
      assert Decides(Eligible(ugs, hgs, now), DENY);
      return;
    }
    var order := Iterate(m);
    var acls := new ACL[|order|](i requires 0 <= i < |order| => order[i]);
    assert acls[..] == order;
    SortByWeight(acls);
    action := HookAction(hook, acls[0].action).0;
    if Coherent(ugs) {
      MapIsEligible(m, ugs, hgs, now);
      FirstIsLightest(acls[..], order, Eligible(ugs, hgs, now));
    }
  }

  /** The values of a map in an arbitrary order. */
  method Iterate(m: map<nat, ACL>) returns (s: seq<ACL>)
    ensures |s| == |m| && forall a :: a in s <==> a in m.Values
  {
    s := [];
    var left := m.Keys;
    while left != {}
      invariant left <= m.Keys && |s| + |left| == |m|
      invariant forall a :: a in s <==> exists id :: id in m.Keys - left && m[id] == a
      decreases left
    {
      var id :| id in left;
      s := s + [m[id]];
      left := left - {id};
    }
    assert m.Keys - left == m.Keys;
  }

  lemma FirstIsLightest(sorted: seq<ACL>, order: seq<ACL>, acls: set<ACL>)
    requires ByWeight(sorted) && multiset(sorted) == multiset(order) && sorted != []
    requires forall a :: a in order <==> a in acls
    ensures Lightest(acls, sorted[0]) && Decides(acls, sorted[0].action)
  {
    assert forall a :: a in sorted <==> a in multiset(sorted);
    assert forall a :: a in order <==> a in multiset(order);
    assert sorted[0] in sorted;
    forall b | b in acls
      ensures sorted[0].weight <= b.weight
    {
      assert b in sorted;
    }
  }

  // ---- what the decision depends on ---------------------------------------------------------------

  /** Each lightest ACL can come first: there is an order of the eligible ACLs, sorted by weight, that starts
      with it. */
  lemma {:induction false} AnyLightestCanWin(acls: set<ACL>, a: ACL) returns (s: seq<ACL>)
    requires Lightest(acls, a)
    ensures ByWeight(s) && s != [] && s[0] == a && multiset(s) == multiset(acls)
    decreases |acls|
  {
    var rest := acls - {a};
    if rest == {} {
      s := [a];
      assert acls == {a};
    } else {
      var b := SomeLightest(rest);
      var t := AnyLightestCanWin(rest, b);
      s := [a] + t;
      assert multiset(acls) == multiset{a} + multiset(rest);
      forall i, j | 0 <= i < j < |s|
        ensures s[i].weight <= s[j].weight
      {
        assert s[j] in multiset(t);
      }
    }
  }

  lemma {:induction false} SomeLightest(acls: set<ACL>) returns (a: ACL)
    requires acls != {}
    ensures Lightest(acls, a)
    decreases |acls|
  {
    a :| a in acls;
    if acls != {a} {
      var b := SomeLightest(acls - {a});
      a := if b.weight < a.weight then b else a;
      assert forall c | c in acls && c !in acls - {a} :: c == a;
    }
  }

  /** If all lightest ACLs share an action the decision does not depend on any order. */
  lemma OneDecision(acls: set<ACL>, d: string, e: string)
    requires forall a, b | Lightest(acls, a) && Lightest(acls, b) :: a.action == b.action
    requires Decides(acls, d) && Decides(acls, e)
    ensures d == e
  {
  }

  /** Permuting or duplicating groups and ACLs changes nothing: only the sets of ACLs and ids matter. */
  lemma GroupingDoesNotMatter(ugs: seq<Group>, hgs: seq<Group>, ugs': seq<Group>, hgs': seq<Group>, now: int)
    requires SameGroups(ugs, ugs') && SameGroups(hgs, hgs')
    ensures Eligible(ugs, hgs, now) == Eligible(ugs', hgs', now)
  {
    SameAcls(ugs, ugs');
    SameAcls(hgs, hgs');
  }

  /** The same groups up to order and repetition, of the groups and of the ACLs inside each. */
  ghost predicate SameGroups(gs: seq<Group>, gs': seq<Group>) {
    && (forall g | g in gs :: HasLike(gs', g))
    && (forall g | g in gs' :: HasLike(gs, g))
  }

  ghost predicate HasLike(gs: seq<Group>, g: Group) {
    exists h :: h in gs && forall a :: a in h.acls <==> a in g.acls
  }

  lemma SameAcls(gs: seq<Group>, gs': seq<Group>)
    requires SameGroups(gs, gs')
    ensures AclsOf(gs) == AclsOf(gs')
  {
    forall a | a in AclsOf(gs)
      ensures a in AclsOf(gs')
    {
      var g :| g in gs && a in g.acls;
      assert HasLike(gs', g);
    }
    forall a | a in AclsOf(gs')
      ensures a in AclsOf(gs)
    {
      var g :| g in gs' && a in g.acls;
      assert HasLike(gs, g);
    }
  }

  /** An id has one content on both sides. */
  ghost predicate CoherentAcross(ugs: seq<Group>, hgs: seq<Group>) {
    forall a, b | a in AclsOf(ugs) && b in AclsOf(ugs) + AclsOf(hgs) && a.id == b.id :: a == b
  }

  /** At most the ACL `x` is new. */
  ghost predicate Adds(gs: seq<Group>, gs': seq<Group>, x: ACL) {
    AclsOf(gs) <= AclsOf(gs') <= AclsOf(gs) + {x}
  }

  /** An ACL heavier than an eligible one changes nothing, put into any groups of the user, of the host, or both. */
  lemma HeavierDoesNotMatter(ugs: seq<Group>, hgs: seq<Group>, ugs': seq<Group>, hgs': seq<Group>,
                             x: ACL, now: int, light: ACL, d: string)
    requires light in Eligible(ugs, hgs, now) && light.weight < x.weight
    requires Adds(ugs, ugs', x) && Adds(hgs, hgs', x) && CoherentAcross(ugs', hgs')
    ensures Decides(Eligible(ugs', hgs', now), d) <==> Decides(Eligible(ugs, hgs, now), d)
  {
    var e, f := Eligible(ugs, hgs, now), Eligible(ugs', hgs', now);
    forall a | a in f
      ensures a in e || a == x
    {
      var b :| b in AclsOf(hgs') && b.id == a.id;
      assert b == a;
    }
    forall a | a in e
      ensures a in f
    {
      var b :| b in AclsOf(hgs) && b.id == a.id;
      assert b in AclsOf(hgs');
    }
    forall a
      ensures Lightest(e, a) <==> Lightest(f, a)
    {
      if Lightest(f, a) {
        assert a.weight <= light.weight;
      }
    }
  }

  /** No inception or expiration between two instants or at them. */
  ghost predicate NoBoundary(acls: set<ACL>, lo: int, hi: int) {
    forall a | a in acls ::
      && (a.inception.Some? ==> a.inception.value < lo || hi < a.inception.value)
      && (a.expiration.Some? ==> a.expiration.value < lo || hi < a.expiration.value)
  }

  lemma ClockDoesNotMatter(ugs: seq<Group>, hgs: seq<Group>, now: int, later: int)
    requires now <= later && NoBoundary(AclsOf(ugs), now, later)
    ensures Eligible(ugs, hgs, now) == Eligible(ugs, hgs, later)
  {
  }

  /** An ACL that is not past its inception, or at or past its expiration, changes nothing, put into any groups of the
      user, of the host, or both. */
  lemma ClosedDoesNotMatter(ugs: seq<Group>, hgs: seq<Group>, ugs': seq<Group>, hgs': seq<Group>, x: ACL, now: int)
    requires Adds(ugs, ugs', x) && Adds(hgs, hgs', x) && CoherentAcross(ugs', hgs')
    requires (x.inception.Some? && now <= x.inception.value) || (x.expiration.Some? && x.expiration.value <= now)
    ensures Eligible(ugs', hgs', now) == Eligible(ugs, hgs, now)
  {
    forall a | a in Eligible(ugs', hgs', now)
      ensures a in Eligible(ugs, hgs, now)
    {
      var b :| b in AclsOf(hgs') && b.id == a.id;
      assert b == a;
    }
    forall a | a in Eligible(ugs, hgs, now)
      ensures a in Eligible(ugs', hgs', now)
    {
      var b :| b in AclsOf(hgs) && b.id == a.id;
      assert b in AclsOf(hgs');
    }
  }

  /** Access needs the hook's consent, or a lightest eligible ACL that allows it and no hook that says otherwise. */
  lemma AllowedOnlyBy(acls: set<ACL>, hook: Hook)
    ensures Grants(acls, hook, "allow") <==>
              || Says(hook, "allow")
              || (!Says(hook, "deny") && exists a :: Lightest(acls, a) && a.action == "allow")
  {
    forall action ensures HookAction(hook, action).0
                       == if Says(hook, "allow") then "allow" else if Says(hook, "deny") then "deny" else action {
      HookIs(hook, action);
    }
    if acls != {} {
      var a := SomeLightest(acls);
      assert Decides(acls, a.action);
    } else {
      assert Decides(acls, "deny");
    }
    if a :| Lightest(acls, a) && a.action == "allow" {
      assert Decides(acls, "allow");
    }
  }

  /** Without an eligible ACL and without a command the answer is deny. */
  lemma NothingSharedDenies(action: string)
    ensures Grants({}, NoCommand, action) <==> action == "deny"
  {
    assert Decides({}, "deny");
  }
}
