/** What the proxy guarantees in every reachable state, before `pipe` returns and when it returns nil. */
module PipeTheorems {
  import opened Common
  import opened Pipe
  import opened PipeSafety

  /** Until an error return, each channel's history keeps the order of section 5.3 of RFC 4254. */
  lemma ClosingOrder(s: State, d: Side)
    requires Reachable(s) && s.loop != Returned(true)
    ensures WellOrdered(s.chan.At(d).ops)
    ensures HalfClosedFirst(s.chan.At(d).ops)
  {
    ReachableInv(s);
  }

  /** Where a worker's token can be. */
  datatype Place = WithWorker | WaitingToSend | InBuffer | InFlag

  predicate In(s: State, w: Worker, p: Place) {
    match p
    case WithWorker => !s.Gone(w) && !s.Announcing(w)
    case WaitingToSend => s.Announcing(w)
    case InBuffer => s.quit == Some(w)
    case InFlag => s.Recorded(w)
  }

  lemma OnePlaceEach(s: State, w: Worker) returns (p: Place)
    requires Reachable(s)
    ensures forall q :: In(s, w, q) <==> q == p
  {
    ReachableInv(s);
    assert s.Recorded(w) ==> s.Gone(w);
    p := if s.Recorded(w) then InFlag else if s.quit == Some(w) then InBuffer
         else if s.Announcing(w) then WaitingToSend else WithWorker;
  }

  /** `pipe` returns nil only when all four workers have ended and `quit` is empty. */
  lemma NilReturn(s: State)
    requires Reachable(s) && s.loop == Returned(false)
    ensures forall w: Worker :: s.Gone(w)
    ensures s.quit == None
  {
    ReachableInv(s);
    forall w: Worker
      ensures s.Gone(w) && s.quit != Some(w)
    {
      assert s.Recorded(w) by {
        match w
        case Copier(d) =>
        case Forwarder(d) =>
      }
    }
  }

  /** What the invariant says of a copier that has ended without a failure. */
  lemma AllCopied(c: Channel, k: Copying, out: seq<byte>)
    requires Delivery(c, k, out)
    ensures out <= c.arrived
    ensures k.pc.CopyGone? && !k.broken ==> out == c.arrived
  {
    assert c.arrived[..c.taken] <= c.arrived;
    assert c.arrived[..|c.arrived|] == c.arrived;
  }

  /** The bytes written to a channel are a prefix of those the other side sent, and all of them after a
      nil return for which no Read or Write failed. */
  lemma BytesInOrder(s: State, d: Side)
    requires Reachable(s)
    ensures && DataOf(s.chan.At(d.Other()).ops) <= s.chan.At(d).arrived
            && (s.loop == Returned(false) && !s.copier.At(d).broken ==>
                  DataOf(s.chan.At(d.Other()).ops) == s.chan.At(d).arrived)
  {
    ReachableInv(s);
    AllCopied(s.chan.At(d), s.copier.At(d), DataOf(s.chan.At(d.Other()).ops));
    if s.loop == Returned(false) {
      NilReturn(s);
      assert s.Gone(Copier(d));
    }
  }

  /** The exec requests among `reqs`. */
  function Execs(reqs: seq<Request>): seq<Request> {
    if reqs == [] then [] else
    var k := |reqs| - 1;
    Execs(reqs[..k]) + if reqs[k].kind == "exec" then [reqs[k]] else []
  }

  lemma {:induction false} ExecLinesAre(reqs: seq<Request>)
    ensures |ExecLines(reqs)| == |Execs(reqs)|
    ensures forall i | 0 <= i < |Execs(reqs)| :: ExecLines(reqs)[i] == Execs(reqs)[i].payload + [10]
  {
    if reqs != [] {
      ExecLinesAre(reqs[..|reqs| - 1]);
    }
  }

  /** At a nil return the log holds exactly the client's exec requests, each with a newline appended. */
  lemma ExecRequestsLogged(s: State)
    requires Reachable(s) && s.loop == Returned(false)
    ensures s.execLog == ExecLines(s.chan.left.requests)
    ensures |s.execLog| == |Execs(s.chan.left.requests)|
    ensures forall i | 0 <= i < |s.execLog| :: s.execLog[i] == Execs(s.chan.left.requests)[i].payload + [10]
  {
    ExecLinesAre(s.chan.left.requests);
    ReachableInv(s);
    NilReturn(s);
    assert s.Gone(Forwarder(Left));
    assert s.chan.left.requests[..|s.chan.left.answers|] == s.chan.left.requests;
  }

  function TokensTaken(acts: seq<Action>): nat {
    if acts == [] then 0 else (if acts[0] == Loop(TakeToken) then 1 else 0) + TokensTaken(acts[1..])
  }

  function Flags(s: State): nat {
    (if s.eofSeen.left then 1 else 0) + (if s.eofSeen.right then 1 else 0)
    + (if s.reqsDone.left then 1 else 0) + (if s.reqsDone.right then 1 else 0)
  }

  lemma RecordCountsFlags(s: State, w: Worker)
    requires !s.Recorded(w)
    ensures Flags(Record(s, w)) == Flags(s) + 1
  {
  }

  lemma LoopCountsFlags(s: State, step: LoopStep)
    requires TokenInv(s) && LoopEnabled(s, step)
    ensures Flags(ApplyLoop(s, step)) == Flags(s) + if step.TakeToken? then 1 else 0
  {
    if step.TakeToken? {
      assert !s.Recorded(s.quit.value);
      RecordCountsFlags(s.(quit := None), s.quit.value);
    } else if step.Continue? {
      ContinueKeepsParts(s);
    }
  }

  lemma StepCountsFlags(s: State, a: Action)
    requires TokenInv(s) && Enabled(s, a)
    ensures Flags(Apply(s, a)) == Flags(s) + if a == Loop(TakeToken) then 1 else 0
  {
    if a.Loop? {
      LoopCountsFlags(s, a.loopStep);
    } else {
      WorkersBeside(s, a);
    }
  }

  lemma {:induction false} RunCountsFlags(s: State, acts: seq<Action>)
    requires TokenInv(s) && Runs(s, acts)
    ensures Flags(Exec(s, acts)) == Flags(s) + TokensTaken(acts)
    decreases |acts|
  {
    if acts != [] {
      StepCountsFlags(s, acts[0]);
      StepKeepsTokens(s, acts[0]);
      RunCountsFlags(Apply(s, acts[0]), acts[1..]);
    }
  }

  /** The event loop takes at most four messages from `quit`, and exactly four for a nil return. */
  lemma AtMostFourTokens(acts: seq<Action>)
    requires Runs(Init(), acts)
    ensures TokensTaken(acts) <= 4
    ensures Exec(Init(), acts).loop == Returned(false) ==> TokensTaken(acts) == 4
  {
    InitInv();
    RunCountsFlags(Init(), acts);
    RunKeepsInv(Init(), acts);
  }

  // ---- after a return ------------------------------------------------------------------------------

  /** Nobody takes a token any more: if `quit` is full no worker ends, and otherwise only the one that fills it. */
  ghost predicate Stuck(s: State, t: State) {
    && (s.quit.Some? ==> t.quit == s.quit && forall w: Worker :: t.Gone(w) <==> s.Gone(w))
    && (s.quit.None? ==> forall w: Worker :: t.Gone(w) <==> s.Gone(w) || t.quit == Some(w))
  }

  lemma StepStuck(s: State, a: Action)
    requires Enabled(s, a) && s.loop.Returned?
    ensures Stuck(s, Apply(s, a)) && Apply(s, a).loop == s.loop
  {
    match a
    case Copy(d, step) => CopyStuck(s, d, step);
    case Forward(d, step) => ForwardStuck(s, d, step);
    case _ =>
  }

  lemma CopyStuck(s: State, d: Side, step: CopyStep)
    requires CopyEnabled(s, d, step) && s.loop.Returned?
    ensures Stuck(s, ApplyCopy(s, d, step)) && ApplyCopy(s, d, step).loop == s.loop
  {
  }

  lemma ForwardStuck(s: State, d: Side, step: ForwardStep)
    requires ForwardEnabled(s, d, step) && s.loop.Returned?
    ensures Stuck(s, ApplyForward(s, d, step)) && ApplyForward(s, d, step).loop == s.loop
  {
  }

  /** Over every run after a return: with `quit` full a worker that has not ended never does, and with `quit` empty at
      most one more ends, the one whose token is left in `quit`. */
  lemma {:induction false} WorkersLeftBehind(s: State, acts: seq<Action>)
    requires s.loop.Returned? && Runs(s, acts)
    ensures Stuck(s, Exec(s, acts))
    decreases |acts|
  {
    if acts != [] {
      var t := Apply(s, acts[0]);
      StepStuck(s, acts[0]);
      WorkersLeftBehind(t, acts[1..]);
    }
  }

  // ---- two things that can happen ------------------------------------------------------

  lemma {:induction false} RunsSnoc(s: State, acts: seq<Action>, a: Action)
    requires Runs(s, acts) && Enabled(Exec(s, acts), a)
    ensures Runs(s, acts + [a]) && Exec(s, acts + [a]) == Apply(Exec(s, acts), a)
    decreases |acts|
  {
    if acts == [] {
      assert Exec(Apply(s, a), []) == Apply(s, a);
    } else {
      assert (acts + [a])[1..] == acts[1..] + [a];
      RunsSnoc(Apply(s, acts[0]), acts[1..], a);
    }
  }

  /** One more step from a reachable state. */
  lemma Then(s: State, a: Action) returns (t: State)
    requires Reachable(s) && Enabled(s, a)
    ensures Reachable(t) && t == Apply(s, a)
  {
    var acts :| Runs(Init(), acts) && Exec(Init(), acts) == s;
    RunsSnoc(Init(), acts, a);
    t := Apply(s, a);
  }

  /** Both workers of a side have nothing left to do and the event loop waits. */
  ghost predicate Idle(s: State, d: Side) {
    && s.loop.Select? && s.quit.None?
    && s.copier.At(d) == Copying(Reading, false) && s.chan.At(d).taken == |s.chan.At(d).arrived|
    && s.forwarder.At(d).Ranging? && s.chan.At(d).pulled == |s.chan.At(d).requests|
    && !s.eofSeen.At(d) && !s.reqsDone.At(d)
  }

  /** The peer of an idle side closes it: its copier ends and the event loop half-closes the other side. */
  lemma EndCopy(s: State, d: Side) returns (t: State)
    requires Reachable(s) && Idle(s, d)
    ensures Reachable(t) && t.loop == TestLeft && t.quit.None? && t.errch == s.errch
    ensures t.forwarder == s.forwarder && t.copier.At(d.Other()) == s.copier.At(d.Other())
    ensures t.eofSeen == s.eofSeen.With(d, true) && t.reqsDone == s.reqsDone
    ensures t.chan.At(d) == s.chan.At(d).(eof := true, closed := true)
    ensures t.chan.At(d.Other()).(ops := s.chan.At(d.Other()).ops) == s.chan.At(d.Other())
  {
    t := Then(s, Peer(d, PeerClose));
    t := Then(t, Copy(d, Read(0, Ended)));
    t := Then(t, Copy(d, AnnounceCopy));
    t := Then(t, Loop(TakeToken));
    t := Then(t, Loop(Continue));
  }

  /** The tests at the end of the event loop's body, when a worker is still missing. */
  lemma Tests(s: State) returns (t: State)
    requires Reachable(s) && s.loop.TestLeft? && !s.AllRecorded()
    ensures Reachable(t) && t == CloseIfOver(CloseIfOver(s, Right), Left).(loop := Select)
  {
    t := Then(s, Loop(Continue));
    t := Then(t, Loop(Continue));
    t := Then(t, Loop(Continue));
  }

  /** The same, for what the tests leave alone. */
  lemma TestsQuietly(s: State) returns (t: State)
    requires Reachable(s) && s.loop.TestLeft? && !s.AllRecorded()
    ensures Reachable(t) && t.loop.Select? && SameParts(s, t)
    ensures Quiet(s, t, Left) && Quiet(s, t, Right)
  {
    t := Tests(s);
    var u := CloseIfOver(s, Right);
    CloseIfOverQuiet(s, Right, Left);
    CloseIfOverQuiet(s, Right, Right);
    CloseIfOverQuiet(u, Left, Left);
    CloseIfOverQuiet(u, Left, Right);
  }

  lemma EndRequests(s: State, d: Side) returns (t: State)
    requires Reachable(s) && s.loop.Select? && s.quit.None? && s.forwarder.At(d).Ranging?
    requires s.chan.At(d).pulled == |s.chan.At(d).requests| && s.chan.At(d).closed
    ensures Reachable(t)
    ensures t == s.(forwarder := s.forwarder.With(d, ForwardGone), reqsDone := s.reqsDone.With(d, true),
                    loop := TestLeft)
  {
    t := Then(s, Forward(d, EndRange));
    t := Then(t, Forward(d, AnnounceForward));
    t := Then(t, Loop(TakeToken));
  }

  /** An idle side that its peer closes is taken down, up to the tests after its last token. */
  lemma EndSide(s: State, d: Side) returns (t: State)
    requires Reachable(s) && Idle(s, d)
    ensures Reachable(t) && t.loop == TestLeft && t.quit.None? && t.errch == s.errch
    ensures t.eofSeen == s.eofSeen.With(d, true) && t.reqsDone == s.reqsDone.With(d, true)
    ensures t.copier.At(d.Other()) == s.copier.At(d.Other()) && t.forwarder.At(d.Other()) == s.forwarder.At(d.Other())
    ensures t.chan.At(d.Other()).(ops := s.chan.At(d.Other()).ops) == s.chan.At(d.Other())
  {
    t := EndCopy(s, d);
    t := TestsQuietly(t);
    t := EndRequests(t, d);
  }

  /** A client's request waits to be sent. */
  lemma RequestInHand() returns (s: State)
    ensures Reachable(s)
    ensures s == Init().(chan := Init().chan.(left := s.chan.left), forwarder := Two(Sending(ENV), Ranging))
    ensures s.chan.left == FreshChannel().(requests := [ENV], pulled := 1)
  {
    assert Runs(Init(), []) && Exec(Init(), []) == Init();
    s := Then(Init(), Peer(Left, PeerRequest(ENV)));
    s := Then(s, Forward(Left, Pull));
  }

  const ENV := Request("env", false, [])

  /** A request of the client fails to be forwarded; its error is buffered and the client is idle again. */
  lemma FailedRequest() returns (s: State)
    ensures Reachable(s) && s.errch && Idle(s, Left) && Idle(s, Right)
  {
    s := RequestInHand();
    s := Then(s, Forward(Left, Send(false, true)));
    s := Then(s, Forward(Left, Raise));
    s := Then(s, Forward(Left, Reply(false)));
  }

  /** A nil return does not imply that `errch` is empty: the select may serve `quit` four times first.  When it is
      empty is stated by `PipeDelivery.ErrorAtNilReturn`. */
  lemma NilReturnWithError() returns (s: State)
    ensures Reachable(s) && s.loop == Returned(false) && s.errch
  {
    s := FailedRequest();
    s := EndSide(s, Left);
    s := Tests(s);
    s := EndSide(s, Right);
    s := Then(s, Loop(Continue));
    s := Then(s, Loop(Continue));
    s := Then(s, Loop(Continue));
  }

  /** An answer may be attempted on a channel after the event loop has closed it, because the forwarder that reads
      that channel's requests is still running.  When it is, is stated by `PipeDelivery.AnswerAfterCloseIff`. */
  lemma AnswerAfterClose() returns (s: State, k: nat)
    ensures Reachable(s) && !s.loop.Returned?
    ensures k + 1 < |s.chan.right.ops| && s.chan.right.ops[k] == Close && s.chan.right.ops[k + 1].Answer?
  {
    assert Runs(Init(), []) && Exec(Init(), []) == Init();
    s := EndSide(Init(), Left);
    s := Tests(s);
    k := |s.chan.right.ops| - 1;
    s := Then(s, Peer(Right, PeerRequest(Request("env", true, []))));
    s := LateReply(s);
  }

  /** The only request of a side, when neither the other side nor this one takes messages any more. */
  lemma LateReply(s: State) returns (t: State)
    requires Reachable(s) && s.loop.Select? && !s.errch && s.forwarder.right.Ranging?
    requires s.chan.right.pulled < |s.chan.right.requests| && s.chan.right.requests[s.chan.right.pulled].wantReply
    ensures Reachable(t) && t.loop.Select? && t.chan.right.ops == s.chan.right.ops + [Answer(false, true)]
  {
    t := Then(s, Forward(Right, Pull));
    t := Then(t, Forward(Right, Send(false, true)));
    t := Then(t, Forward(Right, Raise));
    t := Then(t, Forward(Right, Reply(true)));
  }
}
