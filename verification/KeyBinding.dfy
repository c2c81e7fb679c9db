/** Which user a public key stands for: keys already bound, keys bound by an invite, and how long either lasts. */
module KeyBinding {
  import opened Common

  datatype User = User(name: string, email: string, token: string)

  /** A row of the key table; `userId` is 0 when it belongs to nobody. */
  datatype KeyRow = KeyRow(userId: nat, key: string)

  datatype State = State(users: map<nat, User>, keys: map<nat, KeyRow>)

  datatype UserType = Healthcheck | Bastion | Invite | Shell

  datatype Error = NoError | InviteForBoundKey | InvalidToken | UnknownKey

  /** Who is connected, if the database knows. */
  datatype Outcome = Outcome(userId: Option<nat>, error: Error)

  /** An account that is not in the database. */
  const NOBODY := User("", "", "")

  const INVITE := "invite:"

  // ---- lookups -------------------------------------------------------------------------------------------

  /** Queries for one row take the first by primary key. */
  function First(ids: set<nat>): (r: Option<nat>)
    ensures r.None? <==> ids == {}
    ensures r.Some? ==> r.value in ids && forall id | id in ids :: r.value <= id
  {
    if ids == {} then None else
    LeastExists(ids);
    assert exists id :: id in ids && forall other | other in ids :: id <= other by {
      var id :| IsLeast(ids, id);
    }
    var id :| id in ids && forall other | other in ids :: id <= other;
    Some(id)
  }

  ghost predicate IsLeast(ids: set<nat>, id: nat) {
    id in ids && forall other | other in ids :: id <= other
  }

  lemma {:induction false} LeastExists(ids: set<nat>)
    requires ids != {}
    ensures exists id :: IsLeast(ids, id)
  {
    var id :| id in ids;
    var rest := ids - {id};
    assert ids == rest + {id};
    if rest == {} {
      assert IsLeast(ids, id);
    } else {
      LeastExists(rest);
      var least :| IsLeast(rest, least);
      assert IsLeast(ids, if id <= least then id else least);
    }
  }

  function RowsOf(s: State, key: string): set<nat> {
    set id | id in s.keys && s.keys[id].key == key
  }

  function Holders(s: State, token: string): set<nat> {
    set id | id in s.users && s.users[id].token == token
  }

  /** The row that binds the key. */
  function Bound(s: State, key: string): (r: Option<nat>)
    ensures r.Some? ==> r.value in s.keys && s.keys[r.value].key == key && s.keys[r.value].userId > 0
  {
    match First(RowsOf(s, key))
    case None => None
    case Some(id) => if s.keys[id].userId > 0 then Some(id) else None
  }

  function TypeOf(user: User, username: string): UserType {
    if username == "healthcheck" then Healthcheck
    else if username == user.name || username == user.email || username == "admin" then Shell
    else if INVITE <= username then Invite
    else Bastion
  }

  function UpToColon(s: string): string {
    if s == [] || s[0] == ':' then [] else [s[0]] + UpToColon(s[1..])
  }

  /** What stands between the first colon and the next, or the end. */
  function TokenOf(username: string): string
    requires INVITE <= username
  {
    UpToColon(username[|INVITE|..])
  }

  /** The user an invite is for, when the key is not bound. */
  function Redeems(s: State, username: string, key: string): (r: Option<nat>)
    ensures r.Some? ==> r.value in s.users
  {
    if Bound(s, key).Some? || TypeOf(NOBODY, username) != Invite || TokenOf(username) == "" then None
    else First(Holders(s, TokenOf(username)))
  }

  // ---- one connection ------------------------------------------------------------------------------------

  /** `id` is what the database gives a new key row, and `stored` whether it can create it; `clears` tells whether
      writing the user back stores the empty token. */
  function Auth(s: State, username: string, key: string, id: nat, stored: bool, clears: bool): (State, Outcome) {
    var row, user := Bound(s, key), Redeems(s, username, key);
    if row.Some? then
      var userId := s.keys[row.value].userId;
      var known := userId in s.users;
      var invite := TypeOf(if known then s.users[userId] else NOBODY, username).Invite?;
      (s, Outcome(if known then Some(userId) else None, if invite then InviteForBoundKey else NoError))
    else if user.Some? then
      (State(if clears then s.users[user.value := s.users[user.value].(token := "")] else s.users,
             if stored then s.keys[id := KeyRow(user.value, key)] else s.keys),
       Outcome(Some(user.value), NoError))
    else
      (s, Outcome(None, if TypeOf(NOBODY, username).Invite? then InvalidToken else UnknownKey))
  }

  /** New rows come after all others. */
  predicate IsNew(s: State, id: nat) {
    forall other | other in s.keys :: other < id
  }

  predicate Valid(s: State) {
    0 !in s.users
  }

  /** A user name is an invite exactly if it starts like one and is not the account's own name or email; those, and
      admin, stand for the shell, and what is left for a host. */
  lemma InviteIff(user: User, username: string)
    ensures TypeOf(user, username).Invite? <==> "invite:" <= username && username !in {user.name, user.email}
    ensures TypeOf(user, username).Healthcheck? <==> username == "healthcheck"
    ensures TypeOf(user, username).Shell? <==> username != "healthcheck" && username in {user.name, user.email, "admin"}
  {
    assert "invite:"[0] == 'i' && "healthcheck"[0] == 'h' && "admin"[0] == 'a';
    assert "invite:" <= username ==> username[0] == 'i';
  }

  class Server {
    var users: map<nat, User>
    var keys: map<nat, KeyRow>
    const clears: bool

    function Contents(): State
      reads this
    {
      State(users, keys)
    }

    /** `Outcome.userId` is none for the account the connection goes on with when the database has none.  A key that is
        bound stands for its user and its connection changes nothing; an invite is then an error. */
    method PublicKeyAuth(username: string, key: string, id: nat, stored: bool) returns (outcome: Outcome)
      requires Valid(Contents()) && IsNew(Contents(), id)
      modifies this
      ensures (Contents(), outcome) == Auth(old(Contents()), username, key, id, stored, clears)
      ensures Valid(Contents())
      ensures var row := old(Bound(Contents(), key));
              row.Some? ==>
                var user := keys[row.value].userId;
                var own := user in users && username in {users[user].name, users[user].email};
                && users == old(users) && keys == old(keys)
                && outcome.userId == (if user in users then Some(user) else None)
                && outcome.error == if "invite:" <= username && !own then InviteForBoundKey else NoError
      ensures var row, user := old(Bound(Contents(), key)), old(Redeems(Contents(), username, key));
              row.None? ==>
                if user.Some? then
                  && outcome == Outcome(user, NoError)
                  && keys == (if stored then old(keys)[id := KeyRow(user.value, key)] else old(keys))
                  && users == (if clears then old(users)[user.value := old(users)[user.value].(token := "")]
                               else old(users))
                else
                  && users == old(users) && keys == old(keys)
                  && outcome == Outcome(None, if "invite:" <= username then InvalidToken else UnknownKey)
    {
      var userId, user, error := 0, NOBODY, NoError;
      InviteIff(NOBODY, username);
      var row := First(RowsOf(Contents(), key));
      if row.Some? && keys[row.value].userId > 0 {
        if keys[row.value].userId in users {
          userId := keys[row.value].userId;
          user := users[userId];
        }
        InviteIff(user, username);
        if TypeOf(user, username).Invite? {
          error := InviteForBoundKey;
        }
        return Outcome(if userId > 0 then Some(userId) else None, error);
      }
      if TypeOf(user, username).Invite? {
        var token := TokenOf(username);
        if |token| > 0 {
          var holder := First(Holders(Contents(), token));
          if holder.Some? {
            userId, user := holder.value, users[holder.value];
          }
        }
        if userId > 0 {
          if stored {
            keys := keys[id := KeyRow(userId, key)];
          }
          user := user.(token := "");
          if clears {
            users := users[userId := user];
          }
          return Outcome(Some(userId), NoError);
        }
        return Outcome(None, InvalidToken);
      }
      return Outcome(None, UnknownKey);
    }
  }

  /** The key table changes exactly when a token is redeemed and the row could be created. */
  lemma KeysChangeIff(s: State, username: string, key: string, id: nat, stored: bool, clears: bool)
    requires IsNew(s, id)
    ensures Auth(s, username, key, id, stored, clears).0.keys != s.keys <==> Redeems(s, username, key).Some? && stored
  {
    assert id !in s.keys;
    if Redeems(s, username, key).Some? && stored {
      assert id in Auth(s, username, key, id, stored, clears).0.keys;
    }
  }

  /** After an invite, the key is bound to the user it was for, exactly when the table held no row for the key; the
      rows that bind other keys stay. */
  lemma InviteBinds(s: State, username: string, key: string, id: nat, clears: bool)
    requires IsNew(s, id) && Valid(s) && Redeems(s, username, key).Some?
    ensures var after := Auth(s, username, key, id, true, clears).0;
            && (Bound(after, key) == Some(id) <==> RowsOf(s, key) == {})
            && after.keys[id].userId == Redeems(s, username, key).value
            && forall other | other != key :: Bound(after, other) == Bound(s, other)
  {
    var after := Auth(s, username, key, id, true, clears).0;
    assert RowsOf(after, key) == RowsOf(s, key) + {id};
    forall other | other != key ensures Bound(after, other) == Bound(s, other) {
      assert RowsOf(after, other) == RowsOf(s, other);
    }
  }

  // ---- runs ----------------------------------------------------------------------------------------------

  datatype Event =
    | Connect(username: string, key: string, id: nat, stored: bool)
    /** An administrator adds a key, removes rows, creates or updates a user, removes a user. */
    | AddKey(newId: nat, row: KeyRow)
    | RemoveKeys(ids: set<nat>)
    | SetUser(userId: nat, user: User)
    | RemoveUser(removed: nat)

  predicate Enabled(s: State, e: Event) {
    match e
    case Connect(_, _, id, _) => IsNew(s, id)
    case AddKey(id, _) => IsNew(s, id)
    case RemoveKeys(_) => true
    case SetUser(userId, _) => userId > 0
    case RemoveUser(_) => true
  }

  function Apply(s: State, e: Event, clears: bool): State {
    match e
    case Connect(username, key, id, stored) => Auth(s, username, key, id, stored, clears).0
    case AddKey(id, row) => s.(keys := s.keys[id := row])
    case RemoveKeys(ids) => s.(keys := map id | id in s.keys && id !in ids :: s.keys[id])
    case SetUser(userId, user) => s.(users := s.users[userId := user])
    case RemoveUser(userId) => s.(users := s.users - {userId})
  }

  predicate Runs(s: State, es: seq<Event>, clears: bool)
    decreases |es|
  {
    es == [] || (Enabled(s, es[0]) && Runs(Apply(s, es[0], clears), es[1..], clears))
  }

  function After(s: State, es: seq<Event>, clears: bool): State
    decreases |es|
  {
    if es == [] then s else After(Apply(s, es[0], clears), es[1..], clears)
  }

  /** What the administrator's commands do to a key and to a user. */
  lemma AdminEffects(s: State, id: nat, row: KeyRow, ids: set<nat>, user: nat, account: User, clears: bool)
    requires IsNew(s, id)
    ensures var t := Apply(s, AddKey(id, row), clears);
            && t.users == s.users && (Bound(t, row.key) == Some(id) <==> RowsOf(s, row.key) == {} && row.userId > 0)
    ensures var t := Apply(s, RemoveKeys(ids), clears);
            t.users == s.users && forall k :: k in t.keys <==> k in s.keys && k !in ids
    ensures var t := Apply(s, RemoveKeys(ids), clears); forall k | k in t.keys :: t.keys[k] == s.keys[k]
    ensures var t := Apply(s, SetUser(user, account), clears);
            t.keys == s.keys && user in t.users && t.users[user] == account
    ensures var t := Apply(s, RemoveUser(user), clears);
            t.keys == s.keys && user !in t.users && forall u | u in s.users && u != user :: u in t.users
  {
    var t := Apply(s, AddKey(id, row), clears);
    assert RowsOf(t, row.key) == RowsOf(s, row.key) + {id};
    FirstIs(RowsOf(t, row.key), id);
  }

  /** The event does not remove the row. */
  predicate Leaves(e: Event, id: nat) {
    e.RemoveKeys? ==> id !in e.ids
  }

  lemma StepKeepsBinding(s: State, e: Event, key: string, clears: bool)
    requires Enabled(s, e) && Bound(s, key).Some? && Leaves(e, Bound(s, key).value)
    ensures var row := Bound(s, key);
            && Bound(Apply(s, e, clears), key) == row
            && Apply(s, e, clears).keys[row.value] == s.keys[row.value]
  {
    var row, t := Bound(s, key).value, Apply(s, e, clears);
    assert row in RowsOf(t, key);
    forall id | id in RowsOf(t, key) ensures row <= id {
      assert id in RowsOf(s, key) || row < id;
    }
  }

  /** Whatever else happens, the row that binds a key stays the one that does, with its user id, until it is removed. */
  lemma {:induction false} BindingLasts(s: State, es: seq<Event>, key: string, clears: bool)
    requires Runs(s, es, clears) && Bound(s, key).Some?
    requires forall e | e in es :: Leaves(e, Bound(s, key).value)
    ensures var row := Bound(s, key);
            && Bound(After(s, es, clears), key) == row
            && After(s, es, clears).keys[row.value] == s.keys[row.value]
    decreases |es|
  {
    if es != [] {
      StepKeepsBinding(s, es[0], key, clears);
      BindingLasts(Apply(s, es[0], clears), es[1..], key, clears);
    }
  }

  /** Who a connection with the key is taken for. */
  function Resolves(s: State, username: string, key: string): Option<nat> {
    Auth(s, username, key, 0, false, false).1.userId
  }

  /** After any run that leaves its row, a bound key resolves to its user exactly if that user is in the table. */
  lemma ResolvesIff(s: State, es: seq<Event>, username: string, key: string, id: nat, stored: bool, clears: bool)
    requires Runs(s, es, clears) && Bound(s, key).Some?
    requires forall e | e in es :: Leaves(e, Bound(s, key).value)
    ensures var user, t := s.keys[Bound(s, key).value].userId, After(s, es, clears);
            Auth(t, username, key, id, stored, clears).1.userId == if user in t.users then Some(user) else None
  {
    BindingLasts(s, es, key, clears);
  }

  lemma {:induction false} RunsPrefix(s: State, es: seq<Event>, n: nat, clears: bool)
    requires Runs(s, es, clears) && n <= |es|
    ensures Runs(s, es[..n], clears)
    decreases |es|
  {
    if n > 0 {
      RunsPrefix(Apply(s, es[0], clears), es[1..], n - 1, clears);
      assert es[..n][1..] == es[1..][..n - 1];
    }
  }

  /** A user that is in the table is there throughout a run exactly if the run does not remove it. */
  lemma {:induction false} UserStaysIff(s: State, es: seq<Event>, user: nat, clears: bool)
    requires user in s.users
    ensures (forall n: nat | n <= |es| :: user in After(s, es[..n], clears).users) <==> RemoveUser(user) !in es
    decreases |es|
  {
    if es != [] {
      var t, rest := Apply(s, es[0], clears), es[1..];
      assert forall e :: e in es <==> e == es[0] || e in rest;
      forall n: nat | n <= |rest|
        ensures After(s, es[..n + 1], clears) == After(t, rest[..n], clears)
      {
        assert es[..n + 1][1..] == rest[..n];
      }
      assert After(t, rest[..0], clears) == t;
      if es[0] != RemoveUser(user) {
        UserStaysIff(t, rest, user, clears);
        forall n: nat | n <= |es|
          ensures user in After(s, es[..n], clears).users <==> n == 0 || user in After(t, rest[..n - 1], clears).users
        {
        }
      }
    }
  }

  /** A key that resolves to a user does so throughout a run that leaves its row, exactly if the run does not remove the
      user. */
  lemma ResolvesThroughout(s: State, es: seq<Event>, username: string, key: string, clears: bool)
    requires Runs(s, es, clears) && Bound(s, key).Some? && s.keys[Bound(s, key).value].userId in s.users
    requires forall e | e in es :: Leaves(e, Bound(s, key).value)
    ensures var user := s.keys[Bound(s, key).value].userId;
            (forall n: nat | n <= |es| :: Resolves(After(s, es[..n], clears), username, key) == Some(user))
            <==> RemoveUser(user) !in es
  {
    var user := s.keys[Bound(s, key).value].userId;
    UserStaysIff(s, es, user, clears);
    forall n: nat | n <= |es|
      ensures Resolves(After(s, es[..n], clears), username, key) == Some(user)
              <==> user in After(s, es[..n], clears).users
    {
      RunsPrefix(s, es, n, clears);
      BindingLasts(s, es[..n], key, clears);
    }
  }

  /** Removing a user leaves its keys: a user that is later given the same id is who they stand for. */
  lemma KeyPassesToNextUser(s: State, username: string, key: string, other: User, clears: bool)
    requires Bound(s, key).Some?
    ensures var user := s.keys[Bound(s, key).value].userId;
            var gone, es := [RemoveUser(user)], [RemoveUser(user), SetUser(user, other)];
            && Runs(s, es, clears) && Resolves(After(s, gone, clears), username, key) == None
            && Resolves(After(s, es, clears), username, key) == Some(user)
            && After(s, es, clears).users[user] == other
  {
    var user := s.keys[Bound(s, key).value].userId;
    var e, f := RemoveUser(user), SetUser(user, other);
    var t := Apply(s, e, clears);
    assert [e, f][1..] == [f] && [f][1..] == [] && [e][1..] == [];
    assert After(t, [], clears) == t && After(Apply(t, f, clears), [], clears) == Apply(t, f, clears);
    assert After(s, [e], clears) == t && After(s, [e, f], clears) == After(t, [f], clears) == Apply(t, f, clears);
    BindingLasts(s, [e], key, clears);
    BindingLasts(s, [e, f], key, clears);
  }

  /** The event redeems the token in the state. */
  predicate Spends(s: State, e: Event, token: string) {
    e.Connect? && INVITE <= e.username && TokenOf(e.username) == token && Redeems(s, e.username, e.key).Some?
  }

  /** The row that binds a key: the first for it in the table, if it belongs to a user. */
  lemma BoundIff(s: State, key: string, id: nat)
    ensures Bound(s, key) == Some(id) <==>
              && id in s.keys && s.keys[id].key == key && s.keys[id].userId > 0
              && forall other | other in s.keys && s.keys[other].key == key :: id <= other
  {
    assert forall other :: other in s.keys && s.keys[other].key == key <==> other in RowsOf(s, key);
    FirstIs(RowsOf(s, key), id);
  }

  lemma FirstIs(ids: set<nat>, id: nat)
    ensures First(ids) == Some(id) <==> id in ids && forall other | other in ids :: id <= other
  {
  }

  /** Who an invite is redeemed for: a key that is not bound, and the first user with the token, which is what stands
      between the first two colons. */
  lemma RedeemsIff(s: State, token: string, rest: string, key: string, user: nat)
    requires ':' !in token
    ensures var holds := && Bound(s, key).None? && token != "" && user in s.users && s.users[user].token == token
                         && forall other | other in s.users && s.users[other].token == token :: user <= other;
            && (Redeems(s, "invite:" + token, key) == Some(user) <==> holds)
            && (Redeems(s, "invite:" + token + ":" + rest, key) == Some(user) <==> holds)
  {
    TokenOfInvite(token);
    TokenBeforeColon(token, rest);
    FirstHolder(s, token, user);
  }

  lemma FirstHolder(s: State, token: string, user: nat)
    ensures First(Holders(s, token)) == Some(user) <==>
              && user in s.users && s.users[user].token == token
              && forall other | other in s.users && s.users[other].token == token :: user <= other
  {
    assert forall other :: other in s.users && s.users[other].token == token <==> other in Holders(s, token);
    FirstIs(Holders(s, token), user);
  }

  /** How many connections of the run redeem the token. */
  function Redemptions(s: State, es: seq<Event>, token: string, clears: bool): nat
    decreases |es|
  {
    if es == [] then 0 else
    (if Spends(s, es[0], token) then 1 else 0) + Redemptions(Apply(s, es[0], clears), es[1..], token, clears)
  }

  /** How many times an administrator gives a user the token. */
  function Given(es: seq<Event>, token: string): nat {
    if es == [] then 0 else
    (if es[0].SetUser? && es[0].user.token == token then 1 else 0) + Given(es[1..], token)
  }

  lemma SpendingTakesHolder(s: State, e: Event, token: string)
    requires Spends(s, e, token) && token != ""
    ensures |Holders(Apply(s, e, true), token)| == |Holders(s, token)| - 1
  {
    var user := Redeems(s, e.username, e.key).value;
    assert Holders(Apply(s, e, true), token) == Holders(s, token) - {user};
  }

  lemma OnlyGivingAddsHolder(s: State, e: Event, token: string)
    requires !Spends(s, e, token) && token != ""
    ensures |Holders(Apply(s, e, true), token)| <= |Holders(s, token)| + Given([e], token)
  {
    var before, after := Holders(s, token), Holders(Apply(s, e, true), token);
    if e.SetUser? && e.user.token == token {
      assert after <= before + {e.userId};
      CountSubset(after, before + {e.userId});
    } else {
      assert after <= before;
      CountSubset(after, before);
    }
  }

  /** When the empty token is stored, a token is redeemed at most once for each time it was given out, over any
      run. */
  lemma {:induction false} TokensAreConserved(s: State, es: seq<Event>, token: string)
    requires token != ""
    ensures Redemptions(s, es, token, true) + |Holders(After(s, es, true), token)|
         <= |Holders(s, token)| + Given(es, token)
    decreases |es|
  {
    if es != [] {
      TokensAreConserved(Apply(s, es[0], true), es[1..], token);
      if Spends(s, es[0], token) {
        SpendingTakesHolder(s, es[0], token);
      } else {
        OnlyGivingAddsHolder(s, es[0], token);
      }
    }
  }

  /** A token of one user, not given out again, binds at most one key. */
  lemma OneUse(s: State, es: seq<Event>, token: string)
    requires token != "" && |Holders(s, token)| <= 1 && Given(es, token) == 0
    ensures Redemptions(s, es, token, true) <= 1
  {
    TokensAreConserved(s, es, token);
  }

  /** Once redeemed, a token can be redeemed by another key exactly when its user kept it or another user has it. */
  lemma SpentIff(s: State, first: Event, second: Event, clears: bool)
    requires first.Connect? && second.Connect? && first.username == second.username && first.key != second.key
    requires Spends(s, first, if INVITE <= first.username then TokenOf(first.username) else "")
    requires Bound(s, second.key).None? && Enabled(s, first)
    ensures Redeems(Apply(s, first, clears), second.username, second.key).Some?
            <==> !clears || |Holders(s, TokenOf(first.username))| > 1
  {
    var token, t := TokenOf(first.username), Apply(s, first, clears);
    assert RowsOf(t, second.key) == RowsOf(s, second.key);
    if clears {
      SpendingTakesHolder(s, first, token);
    } else {
      assert Holders(t, token) == Holders(s, token);
    }
  }

  lemma {:induction false} UpToColonIs(s: string)
    requires ':' !in s
    ensures UpToColon(s) == s
  {
    if s != [] {
      UpToColonIs(s[1..]);
    }
  }

  lemma {:induction false} UpToColonStops(s: string, rest: string)
    requires ':' !in s
    ensures UpToColon(s + ":" + rest) == s
  {
    if s != [] {
      UpToColonStops(s[1..], rest);
      assert (s + ":" + rest)[1..] == s[1..] + ":" + rest;
    } else {
      assert (s + ":" + rest)[0] == ':';
    }
  }

  lemma TokenBeforeColon(token: string, rest: string)
    requires ':' !in token
    ensures var username := INVITE + token + ":" + rest;
            INVITE <= username && TokenOf(username) == token && TypeOf(NOBODY, username).Invite?
  {
    var username := INVITE + token + ":" + rest;
    UpToColonStops(token, rest);
    assert username[|INVITE|..] == token + ":" + rest;
    assert username[0] == 'i' && username[1] == 'n';
  }

  /** An invite carries its token. */
  lemma TokenOfInvite(token: string)
    requires ':' !in token
    ensures TokenOf(INVITE + token) == token && TypeOf(NOBODY, INVITE + token).Invite?
  {
    UpToColonIs(token);
    assert (INVITE + token)[|INVITE|..] == token;
    assert (INVITE + token)[0] == 'i';
  }

  /** Writing back only the fields that are not empty leaves the token: the same invite binds any two keys. */
  lemma TokenKeptBindsTwoKeys(s: State, token: string, key: string, other: string, id: nat)
    requires token != "" && ':' !in token && Holders(s, token) != {} && Valid(s)
    requires key != other && RowsOf(s, key) == {} && RowsOf(s, other) == {} && IsNew(s, id)
    ensures var e, f := Connect(INVITE + token, key, id, true), Connect(INVITE + token, other, id + 1, true);
            var t := Apply(s, e, false);
            && Enabled(s, e) && Spends(s, e, token) && Enabled(t, f) && Spends(t, f, token)
            && Bound(Apply(t, f, false), key) == Some(id) && Bound(Apply(t, f, false), other) == Some(id + 1)
  {
    var username, t := INVITE + token, Apply(s, Connect(INVITE + token, key, id, true), false);
    TokenOfInvite(token);
    InviteBinds(s, username, key, id, false);
    assert Holders(t, token) == Holders(s, token) && RowsOf(t, other) == RowsOf(s, other);
    InviteBinds(t, username, other, id + 1, false);
  }
}

/** Learning the key of a host at the first connection, and holding on to it. */
module HostKeys {
  import opened Common

  type Key = k: seq<byte> | k != [] witness [0]

  /** A host as stored; the key is empty until one is learnt. */
  class Host {
    var hostKey: seq<byte>

    /** `stored` tells whether the database took the update. */
    method Check(key: Key, stored: bool) returns (ok: bool)
      modifies this
      ensures (hostKey, ok) == Offer(old(hostKey), key, stored)
    {
      if |hostKey| == 0 {
        ok := stored;
        if stored {
          hostKey := key;
        }
        return;
      }
      ok := hostKey == key;
    }
  }

  function Offer(hostKey: seq<byte>, key: Key, stored: bool): (seq<byte>, bool) {
    if hostKey == [] then (if stored then key else [], stored) else (hostKey, hostKey == key)
  }

  /** One connection after another: the key that is offered and whether the database takes an update. */
  function AfterOffers(hostKey: seq<byte>, offers: seq<(Key, bool)>): seq<byte>
    decreases |offers|
  {
    if offers == [] then hostKey else
    var last := offers[|offers| - 1];
    Offer(AfterOffers(hostKey, offers[..|offers| - 1]), last.0, last.1).0
  }

  predicate Accepted(hostKey: seq<byte>, offers: seq<(Key, bool)>, i: nat)
    requires i < |offers|
  {
    Offer(AfterOffers(hostKey, offers[..i]), offers[i].0, offers[i].1).1
  }

  /** The key, once known, does not change. */
  lemma {:induction false} KeyStays(hostKey: seq<byte>, offers: seq<(Key, bool)>, i: nat)
    requires i <= |offers| && AfterOffers(hostKey, offers[..i]) != []
    ensures AfterOffers(hostKey, offers) == AfterOffers(hostKey, offers[..i])
    decreases |offers|
  {
    if i < |offers| {
      assert offers[..|offers| - 1][..i] == offers[..i];
      KeyStays(hostKey, offers[..|offers| - 1], i);
    } else {
      assert offers[..i] == offers;
    }
  }

  /** A connection is accepted exactly if its key is the one that is stored after it. */
  lemma AcceptedIff(hostKey: seq<byte>, offers: seq<(Key, bool)>, i: nat)
    requires i < |offers|
    ensures Accepted(hostKey, offers, i) <==> AfterOffers(hostKey, offers[..i + 1]) == offers[i].0
  {
    assert offers[..i + 1][..i] == offers[..i];
  }

  /** The first key offered that the database took. */
  function FirstStored(offers: seq<(Key, bool)>): seq<byte> {
    if offers == [] then [] else if offers[0].1 then offers[0].0 else FirstStored(offers[1..])
  }

  lemma {:induction false} FirstStoredSnoc(offers: seq<(Key, bool)>, last: (Key, bool))
    ensures FirstStored(offers + [last])
         == if FirstStored(offers) != [] then FirstStored(offers) else if last.1 then last.0 else []
    decreases |offers|
  {
    if offers != [] {
      assert (offers + [last])[1..] == offers[1..] + [last];
      FirstStoredSnoc(offers[1..], last);
    } else {
      assert ([] + [last])[1..] == [];
    }
  }

  /** The stored key is the one that was known, or else the first that was offered and stored. */
  lemma {:induction false} LearntKeyIs(hostKey: seq<byte>, offers: seq<(Key, bool)>)
    ensures AfterOffers(hostKey, offers) == if hostKey != [] then hostKey else FirstStored(offers)
    decreases |offers|
  {
    if offers != [] {
      var rest, last := offers[..|offers| - 1], offers[|offers| - 1];
      LearntKeyIs(hostKey, rest);
      FirstStoredSnoc(rest, last);
      assert offers == rest + [last];
    }
  }

  /** All connections that are accepted, in any run of one after another, show the same key: the one that is stored. */
  lemma AcceptedKeysAgree(hostKey: seq<byte>, offers: seq<(Key, bool)>, i: nat)
    requires i < |offers| && Accepted(hostKey, offers, i)
    ensures offers[i].0 == AfterOffers(hostKey, offers)
  {
    assert offers[..i + 1][..i] == offers[..i];
    KeyStays(hostKey, offers, i + 1);
  }
}
