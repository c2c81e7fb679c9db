/** Session rows over the life of a server: they are created for granted routes, closed when the end of their handler
    is written back, and closed at start-up if they are still active. */
module SessionLifecycle {
  import opened Common
  import opened HopRoute
  import AccessControl

  datatype Status = Active | Closed

  datatype Session = Session(userId: nat, hostId: nat, status: Status, errMsg: string)

  /** `running` are the sessions of this process whose handler has not ended; `ended` those whose handler has ended,
      with its error, if any, and whose row is about to be written. */
  datatype State = State(sessions: map<nat, Session>, running: set<nat>, ended: map<nat, Option<string>>, up: bool)

  /** What the access check of each host sees: the groups of the user and of the host, the time and the hook. */
  datatype Access = Access(
    userGroups: nat -> seq<AccessControl.Group>, hostGroups: nat -> seq<AccessControl.Group>,
    now: nat -> int, hook: nat -> AccessControl.Hook)
  {
    function Eligible(id: nat): set<AccessControl.ACL> {
      AccessControl.Eligible(userGroups(id), hostGroups(id), now(id))
    }

    /** The action of each check is one that `checkACLs` can return. */
    ghost predicate Judges(checks: nat -> Check) {
      forall id ::
        AccessControl.Coherent(userGroups(id)) && AccessControl.Grants(Eligible(id), hook(id), checks(id).action)
    }

    /** The hook allows the host, or it does not deny it and some lightest eligible ACL allows it. */
    ghost predicate Allows(id: nat) {
      || AccessControl.Says(hook(id), "allow")
      || (!AccessControl.Says(hook(id), "deny")
          && exists a :: AccessControl.Lightest(Eligible(id), a) && a.action == "allow")
    }
  }

  datatype Event =
    /** A channel to an SSH host; `id` is what the database assigns, `stored` whether it could create the row. */
    | Connect(hosts: Hosts, userId: nat, hostId: nat, access: Access, checks: nat -> Check, id: nat, stored: bool)
    /** The handler of a session returns, with its error, if any. */
    | HandlerEnds(endedId: nat, error: Option<string>)
    /** The end of a session is written to its row; an error of that write is ignored. */
    | Record(recordedId: nat, written: bool)
    | Halt
    /** The process starts, unless the active rows could not be closed. */
    | Start(closed: bool)

  const HALTED := "sshportal was halted while the connection was still active"

  /** Every host on the way passed its own check. */
  ghost predicate Granted(hosts: Hosts, hostId: nat, checks: nat -> Check) {
    exists chain :: ChainOf(hosts, hostId, chain) && forall id | id in chain :: checks(id).Passes()
  }

  /** Every host of the hop chain has a client configuration, and its access check says allow. */
  ghost predicate Admits(hosts: Hosts, hostId: nat, checks: nat -> Check) {
    exists chain :: ChainOf(hosts, hostId, chain) && AllAllowed(checks, chain)
  }

  ghost predicate AllAllowed(checks: nat -> Check, chain: seq<nat>) {
    forall id | id in chain :: checks(id).config && checks(id).action == "allow"
  }

  lemma GrantedIff(hosts: Hosts, hostId: nat, checks: nat -> Check)
    ensures Granted(hosts, hostId, checks) <==> Admits(hosts, hostId, checks)
  {
    if chain :| ChainOf(hosts, hostId, chain) && forall id | id in chain :: checks(id).Passes() {
      assert AllAllowed(checks, chain);
    }
    if chain :| ChainOf(hosts, hostId, chain) && AllAllowed(checks, chain) {
      assert forall id | id in chain :: checks(id).Passes();
    }
  }

  ghost predicate Enabled(s: State, e: Event) {
    match e
    case Connect(hosts, _, hostId, access, checks, id, _) =>
      s.up && id !in s.sessions && hostId in hosts && Named(hosts) && access.Judges(checks)
    case HandlerEnds(id, _) => s.up && id in s.running
    case Record(id, _) => s.up && id in s.ended
    case Halt => s.up
    case Start(_) => !s.up
  }

  function CloseActive(sessions: map<nat, Session>): map<nat, Session> {
    map id | id in sessions ::
      if sessions[id].status.Active? then sessions[id].(status := Closed, errMsg := HALTED) else sessions[id]
  }

  /** A row after the write-back; an empty message is not written. */
  function Ended(row: Session, error: Option<string>): Session {
    row.(status := Closed, errMsg := if error.Some? then error.value else row.errMsg)
  }

  ghost function Apply(s: State, e: Event): State {
    match e
    case Connect(hosts, userId, hostId, _, checks, id, stored) =>
      if stored && Granted(hosts, hostId, checks)
      then s.(sessions := s.sessions[id := Session(userId, hostId, Active, "")], running := s.running + {id})
      else s
    case HandlerEnds(id, error) => s.(running := s.running - {id}, ended := s.ended[id := error])
    case Record(id, written) =>
      var t := s.(ended := s.ended - {id});
      if written && id in s.ended && id in s.sessions
      then t.(sessions := s.sessions[id := Ended(s.sessions[id], s.ended[id])])
      else t
    case Halt => s.(running := {}, ended := map[], up := false)
    case Start(closed) => if closed then s.(sessions := CloseActive(s.sessions), up := true) else s
  }

  // ---- one step -------------------------------------------------------------------------------------

  /** The sessions whose write-back failed since the last start. */
  function LostNext(lost: set<nat>, e: Event): set<nat> {
    match e
    case Record(id, written) => if written then lost else lost + {id}
    case Start(closed) => if closed then {} else lost
    case _ => lost
  }

  /** While the process is up, the active rows are those that are handled, those about to be written and those whose
      write failed; no session is two of these. */
  ghost predicate Inv(s: State, lost: set<nat>) {
    && s.running <= s.sessions.Keys && s.ended.Keys <= s.sessions.Keys && lost <= s.sessions.Keys
    && s.running !! s.ended.Keys && s.running !! lost && s.ended.Keys !! lost
    && (s.up ==> forall id | id in s.sessions ::
                   s.sessions[id].status.Active? <==> id in s.running || id in s.ended || id in lost)
    && (!s.up ==> s.running == {} && s.ended == map[])
  }

  lemma StepKeepsInv(s: State, e: Event, lost: set<nat>)
    requires Inv(s, lost) && Enabled(s, e)
    ensures Inv(Apply(s, e), LostNext(lost, e))
  {
  }

  /** Rows stay, keep their user and host, and once closed stay closed. */
  ghost predicate Keeps(s: State, t: State) {
    forall id | id in s.sessions ::
      && id in t.sessions
      && t.sessions[id].userId == s.sessions[id].userId && t.sessions[id].hostId == s.sessions[id].hostId
      && (s.sessions[id].status.Closed? ==> t.sessions[id].status.Closed?)
  }

  lemma StepKeeps(s: State, e: Event)
    requires Enabled(s, e)
    ensures Keeps(s, Apply(s, e))
  {
  }

  // ---- runs -----------------------------------------------------------------------------------------

  /** No session and no process. */
  const INITIAL := State(map[], {}, map[], false)

  ghost predicate Runs(s: State, es: seq<Event>)
    decreases |es|
  {
    es == [] || (Runs(s, es[..|es| - 1]) && Enabled(After(s, es[..|es| - 1]), es[|es| - 1]))
  }

  ghost function After(s: State, es: seq<Event>): State
    decreases |es|
  {
    if es == [] then s else Apply(After(s, es[..|es| - 1]), es[|es| - 1])
  }

  /** The sessions whose write-back has failed since the last start of the run. */
  function Lost(es: seq<Event>): set<nat>
    decreases |es|
  {
    if es == [] then {} else LostNext(Lost(es[..|es| - 1]), es[|es| - 1])
  }

  lemma {:induction false} RunKeepsInv(es: seq<Event>)
    requires Runs(INITIAL, es)
    ensures Inv(After(INITIAL, es), Lost(es))
    decreases |es|
  {
    if es != [] {
      RunKeepsInv(es[..|es| - 1]);
      StepKeepsInv(After(INITIAL, es[..|es| - 1]), es[|es| - 1], Lost(es[..|es| - 1]));
    }
  }

  /** After any run with restarts, while the process is up: a row is active exactly if it is handled, or its handler
      has ended and its end is not written yet, or that write has failed since the start. */
  lemma ActiveIff(es: seq<Event>, id: nat)
    requires Runs(INITIAL, es) && id in After(INITIAL, es).sessions && After(INITIAL, es).up
    ensures var s := After(INITIAL, es);
            s.sessions[id].status.Active? <==> id in s.running || id in s.ended || id in Lost(es)
  {
    RunKeepsInv(es);
  }

  /** A row that is active although nothing is left to close it. */
  ghost predicate Orphan(s: State, id: nat) {
    id in s.sessions && s.sessions[id].status.Active? && id !in s.running && id !in s.ended
  }

  /** There is none exactly if every write-back since the start was stored. */
  lemma NoOrphanIff(es: seq<Event>)
    requires Runs(INITIAL, es) && After(INITIAL, es).up
    ensures (forall id :: !Orphan(After(INITIAL, es), id)) <==> Lost(es) == {}
  {
    RunKeepsInv(es);
    if id :| id in Lost(es) {
      assert Orphan(After(INITIAL, es), id);
    }
  }

  /** Nothing is lost exactly if, since the last start, no write-back failed. */
  lemma {:induction false} LostIff(es: seq<Event>, id: nat)
    ensures id in Lost(es) <==>
              exists k :: 0 <= k < |es| && es[k] == Record(id, false) && forall j | k < j < |es| :: es[j] != Start(true)
    decreases |es|
  {
    if es != [] {
      var n := |es| - 1;
      var rest := es[..n];
      LostIff(rest, id);
      if k :| 0 <= k < n && rest[k] == Record(id, false) && forall j | k < j < n :: rest[j] != Start(true) {
        assert es[k] == Record(id, false) && forall j | k < j < n :: es[j] == rest[j];
      }
      if es[n] == Record(id, false) {
        assert 0 <= n < |es| && es[n] == Record(id, false);
      }
    }
  }

  /** Right after a start no row is active. */
  lemma NoneActiveAfterStart(es: seq<Event>, id: nat)
    requires Runs(INITIAL, es) && es != [] && es[|es| - 1] == Start(true) && id in After(INITIAL, es).sessions
    ensures After(INITIAL, es).sessions[id].status.Closed?
  {
    RunKeepsInv(es[..|es| - 1]);
    ActiveIff(es, id);
  }

  /** A status only ever goes from active to closed. */
  lemma {:induction false} StatusOnlyCloses(s: State, es: seq<Event>, n: nat)
    requires Runs(s, es) && n <= |es|
    ensures Keeps(After(s, es[..n]), After(s, es))
    decreases |es|
  {
    if n == |es| {
      assert es[..n] == es;
    } else {
      var rest := es[..|es| - 1];
      StatusOnlyCloses(s, rest, n);
      assert rest[..n] == es[..n];
      StepKeeps(After(s, rest), es[|es| - 1]);
    }
  }

  /** The event created the row: it is a connection for which every host on the route was allowed. */
  ghost predicate Creates(e: Event, id: nat, row: Session) {
    && e.Connect? && e.id == id && e.hostId == row.hostId && e.userId == row.userId
    && e.access.Judges(e.checks) && Granted(e.hosts, e.hostId, e.checks)
  }

  lemma {:induction false} EveryRowGranted(es: seq<Event>, id: nat) returns (k: nat)
    requires Runs(INITIAL, es) && id in After(INITIAL, es).sessions
    ensures k < |es| && Creates(es[k], id, After(INITIAL, es).sessions[id])
    decreases |es|
  {
    var rest, last := es[..|es| - 1], es[|es| - 1];
    if id in After(INITIAL, rest).sessions {
      k := EveryRowGranted(rest, id);
      StepKeeps(After(INITIAL, rest), last);
    } else {
      k := |es| - 1;
    }
  }

  /** A session appears exactly with a connection that is admitted and stored; its row is active then, without an error,
      and it is handled. */
  lemma RowAppearsIff(s: State, e: Event, id: nat)
    requires Enabled(s, e)
    ensures id !in s.sessions && id in Apply(s, e).sessions <==>
              e.Connect? && e.id == id && e.stored && Admits(e.hosts, e.hostId, e.checks)
    ensures id !in s.sessions && id in Apply(s, e).sessions ==>
              Apply(s, e).sessions[id] == Session(e.userId, e.hostId, Active, "") && id in Apply(s, e).running
  {
    if e.Connect? {
      GrantedIff(e.hosts, e.hostId, e.checks);
    }
  }

  /** From then on its row stays as it is and it is handled, until its handler ends or the process halts. */
  lemma {:induction false} AdmittedIsHandled(es: seq<Event>, k: nat)
    requires Runs(INITIAL, es) && k < |es|
    requires es[k].Connect? && es[k].stored && Admits(es[k].hosts, es[k].hostId, es[k].checks)
    requires forall j | k < j < |es| :: es[j] != Halt && !(es[j].HandlerEnds? && es[j].endedId == es[k].id)
    ensures var e, s := es[k], After(INITIAL, es);
            && e.id in s.sessions && s.sessions[e.id] == Session(e.userId, e.hostId, Active, "")
            && e.id in s.running && s.up
    decreases |es|
  {
    var n := |es| - 1;
    var rest := es[..n];
    if k == n {
      GrantedIff(es[k].hosts, es[k].hostId, es[k].checks);
    } else {
      assert rest[k] == es[k] && forall j | k < j < n :: rest[j] == es[j];
      AdmittedIsHandled(rest, k);
      RunKeepsInv(rest);
    }
  }

  /** A check that passes has an action that the hook, or an ACL the hook did not deny, allows. */
  lemma PassedIsAllowed(access: Access, checks: nat -> Check, id: nat)
    requires access.Judges(checks) && checks(id).Passes()
    ensures access.Allows(id)
  {
    AccessControl.AllowedOnlyBy(access.Eligible(id), access.hook(id));
  }

  /** Every row of every run comes from a connection of its user to its host such that each host of the hop chain has a
      client configuration and an allow action, for which the hook printed allow, or it did not print deny and some
      lightest eligible ACL allows. */
  lemma EveryRowAllowed(es: seq<Event>, id: nat) returns (k: nat, chain: seq<nat>)
    requires Runs(INITIAL, es) && id in After(INITIAL, es).sessions
    ensures k < |es| && Creates(es[k], id, After(INITIAL, es).sessions[id])
    ensures ChainOf(es[k].hosts, es[k].hostId, chain) && AllAllowed(es[k].checks, chain)
    ensures forall host | host in chain :: es[k].access.Allows(host)
  {
    k := EveryRowGranted(es, id);
    var e := es[k];
    chain :| ChainOf(e.hosts, e.hostId, chain) && forall host | host in chain :: e.checks(host).Passes();
    forall host | host in chain
      ensures e.access.Allows(host)
    {
      PassedIsAllowed(e.access, e.checks, host);
    }
  }

  // ---- the server -----------------------------------------------------------------------------------

  class Server {
    var sessions: map<nat, Session>
    var running: set<nat>
    var ended: map<nat, Option<string>>
    var up: bool

    constructor ()
      ensures Now() == INITIAL
    {
      sessions, running, ended, up := map[], {}, map[], false;
    }

    function Now(): State
      reads this
    {
      State(sessions, running, ended, up)
    }

    /** `ChannelHandler` for a host with the SSH scheme; `path` are the hosts that the walk looks at. */
    method Connect(e: Event, ghost path: seq<nat>) returns (route: Option<seq<nat>>)
      requires e.Connect? && Enabled(Now(), e) && IsWalk(e.hosts, e.hostId, e.checks, path)
      modifies this
      ensures Now() == Apply(old(Now()), e)
      ensures route.Some? <==> e.stored && Admits(e.hosts, e.hostId, e.checks)
      ensures ended == old(ended) && up == old(up)
      ensures if e.stored && Admits(e.hosts, e.hostId, e.checks)
              then sessions == old(sessions)[e.id := Session(e.userId, e.hostId, Active, "")]
                   && running == old(running) + {e.id}
              else sessions == old(sessions) && running == old(running)
      ensures route.Some? ==> ChainOf(e.hosts, e.hostId, path) && route.value == Reverse(path)
    {
      WalkGrants(e.hosts, e.hostId, e.checks, path);
      GrantedIff(e.hosts, e.hostId, e.checks);
      route := Walk(e.hosts, e.hostId, e.checks, path);
      if route.None? || !e.stored {
        return None;
      }
      sessions := sessions[e.id := Session(e.userId, e.hostId, Active, "")];
      running := running + {e.id};
    }

    /** The goroutine of a session, when its handler has returned. */
    method End(id: nat, error: Option<string>)
      requires Enabled(Now(), HandlerEnds(id, error))
      modifies this
      ensures Now() == Apply(old(Now()), HandlerEnds(id, error))
      ensures sessions == old(sessions) && up && running + {id} == old(running) && id !in running
      ensures id in ended && ended[id] == error
      ensures forall other | other != id :: other in ended <==> other in old(ended)
      ensures forall other | other != id && other in ended :: ended[other] == old(ended)[other]
    {
      running := running - {id};
      ended := ended[id := error];
    }

    /** Its last statement; whether it could write the row makes no difference to it. */
    method WriteBack(id: nat, written: bool)
      requires Enabled(Now(), Record(id, written))
      modifies this
      ensures Now() == Apply(old(Now()), Record(id, written))
      ensures running == old(running) && up && ended == old(ended) - {id}
      ensures if written && id in old(sessions) then
                var row := old(sessions)[id];
                var message := if old(ended)[id].Some? then old(ended)[id].value else row.errMsg;
                sessions == old(sessions)[id := Session(row.userId, row.hostId, Closed, message)]
              else sessions == old(sessions)
    {
      if written && id in sessions {
        var row := sessions[id];
        row := row.(status := Closed);
        if ended[id].Some? {
          row := row.(errMsg := ended[id].value);
        }
        sessions := sessions[id := row];
      }
      ended := ended - {id};
    }

    /** The last step of `DBInit`: every active row is closed and says why, the others are left alone. */
    method StartUp(closed: bool)
      requires !up
      modifies this
      ensures Now() == Apply(old(Now()), Start(closed))
      ensures up == closed && sessions.Keys == old(sessions.Keys)
      ensures forall id | id in sessions ::
                var row := old(sessions)[id];
                && sessions[id].userId == row.userId && sessions[id].hostId == row.hostId
                && (closed ==> sessions[id].status.Closed?)
                && (if closed && row.status.Active? then sessions[id].errMsg == HALTED else sessions[id] == row)
    {
      if closed {
        sessions := CloseActive(sessions);
        up := true;
      }
    }
  }

  lemma WalkGrants(hosts: Hosts, hostId: nat, checks: nat -> Check, path: seq<nat>)
    requires IsWalk(hosts, hostId, checks, path)
    ensures Granted(hosts, hostId, checks) <==> checks(path[|path| - 1]).Passes()
    ensures checks(path[|path| - 1]).Passes() ==> ChainOf(hosts, hostId, path)
  {
    if checks(path[|path| - 1]).Passes() {
      assert ChainOf(hosts, hostId, path) && forall id | id in path :: checks(id).Passes();
    }
    if chain :| ChainOf(hosts, hostId, chain) && forall id | id in chain :: checks(id).Passes() {
      WalkWithinChain(hosts, checks, path, chain);
      assert path[|path| - 1] == chain[|path| - 1];
    }
  }
}
