/** Progress of the channel proxy over infinite runs under weak fairness. */
module PipeLiveness {
  import opened Common
  import opened Pipe
  import opened PipeSafety

  /** What the scheduler runs: four goroutines and the event loop. */
  datatype Part = Goroutine(w: Worker) | EventLoop

  function PartOf(a: Action): Option<Part> {
    match a
    case Copy(d, _) => Some(Goroutine(Copier(d)))
    case Forward(d, _) => Some(Goroutine(Forwarder(d)))
    case Loop(_) => Some(EventLoop)
    case _ => None
  }

  /** `p` is not blocked.  Reads wait for data or end of file; channel writes and requests are taken to return. */
  predicate CanAct(s: State, p: Part) {
    match p
    case EventLoop => !s.loop.Returned? && (!s.loop.Select? || s.errch || s.quit.Some?)
    case Goroutine(Copier(d)) =>
      (match s.copier.At(d).pc
       case Reading => s.chan.At(d).taken < |s.chan.At(d).arrived| || s.chan.At(d).eof
       case Writing(_, _) => true
       case CopyAnnouncing => s.quit.None?
       case CopyGone => false)
    case Goroutine(Forwarder(d)) =>
      (match s.forwarder.At(d)
       case Ranging => s.chan.At(d).pulled < |s.chan.At(d).requests| || s.chan.At(d).closed
       case Raising(_, _) => !s.errch
       case RaisingReply => !s.errch
       case ForwardAnnouncing => s.quit.None?
       case ForwardGone => false
       case _ => true)
  }

  /** An unblocked part has a step to take. */
  lemma HasStep(s: State, p: Part) returns (a: Action)
    requires Inv(s) && CanAct(s, p)
    ensures Enabled(s, a) && PartOf(a) == Some(p)
  {
    match p
    case EventLoop =>
      a := Loop(if s.loop.Select? then if s.errch then TakeError else TakeToken else Continue);
    case Goroutine(Copier(d)) =>
      var c := s.chan.At(d);
      a := Copy(d, match s.copier.At(d).pc
                   case Reading => if c.taken < |c.arrived| then Read(1, More) else Read(0, Ended)
                   case Writing(_, _) => Write(0, true)
                   case _ => AnnounceCopy);
    case Goroutine(Forwarder(d)) =>
      var c := s.chan.At(d);
      a := Forward(d, match s.forwarder.At(d)
                      case Ranging => if c.pulled < |c.requests| then Pull else EndRange
                      case Sending(_) => Send(false, true)
                      case Logging(_, _, _) => LogExec
                      case Replying(req, _) => Reply(req.wantReply)
                      case ForwardAnnouncing => AnnounceForward
                      case _ => Raise);
  }

  ghost predicate IsRun(run: nat -> State, act: nat -> Action) {
    && run(0) == Init()
    && forall n: nat {:trigger act(n)} :: Enabled(run(n), act(n)) && run(n + 1) == Apply(run(n), act(n))
  }

  /** Weak fairness: no part stays unblocked for ever without taking a step. */
  ghost predicate Fair(run: nat -> State, act: nat -> Action) {
    forall p: Part, n: nat :: FairAt(run, act, p, n)
  }

  ghost predicate FairAt(run: nat -> State, act: nat -> Action, p: Part, n: nat) {
    exists m: nat {:trigger act(m)} :: n <= m && (!CanAct(run(m), p) || PartOf(act(m)) == Some(p))
  }

  /** A channel that the event loop has closed is eventually closed by its peer, which ends its streams. */
  ghost predicate PeersAnswerClose(run: nat -> State) {
    forall d: Side, n: nat :: Close in run(n).chan.At(d).ops ==> ClosedAfter(run, d, n)
  }

  ghost predicate ClosedAfter(run: nat -> State, d: Side, n: nat) {
    exists m: nat :: n <= m && run(m).chan.At(d).closed
  }

  // ---- the measure --------------------------------------------------------------------------------

  /** What is to be drained: all that one side sent, the token of one worker, or the error channel. */
  datatype Focus = OnSide(d: Side) | OnToken(w: Worker) | OnError

  function Phase(s: State, w: Worker): nat {
    if s.Recorded(w) then 0 else if s.Gone(w) then 10 else if s.Announcing(w) then 20 else 40
  }

  function Phases(s: State): nat {
    Phase(s, Copier(Left)) + Phase(s, Copier(Right)) + Phase(s, Forwarder(Left)) + Phase(s, Forwarder(Right))
  }

  function LoopRank(pc: LoopPc): nat {
    match pc
    case Select => 0
    case HalfClose(_) => 4
    case TestLeft => 3
    case TestRight => 2
    case TestAll => 1
    case Returned(_) => 0
  }

  function CopyWork(c: Channel, pc: CopyPc): nat {
    var unread := if c.taken <= |c.arrived| then |c.arrived| - c.taken else 0;
    match pc
    case Reading => 2 * unread
    case Writing(_, _) => 2 * unread + 1
    case _ => 0
  }

  function ForwardWork(c: Channel, pc: ForwardPc): nat {
    var left := if c.pulled <= |c.requests| then |c.requests| - c.pulled else 0;
    match pc
    case Ranging => 8 * left
    case Sending(_) => 8 * left + 7
    case Logging(_, _, _) => 8 * left + 6
    case Raising(_, _) => 8 * left + 5
    case Replying(_, _) => 8 * left + 4
    case RaisingReply => 8 * left + 1
    case _ => 0
  }

  function SideWork(s: State, d: Side): nat {
    CopyWork(s.chan.At(d), s.copier.At(d).pc) + ForwardWork(s.chan.At(d), s.forwarder.At(d))
  }

  function FocusWork(s: State, f: Focus): nat {
    if f.OnSide? then SideWork(s, f.d) else 0
  }

  function Rest(s: State): nat {
    (if s.errch then 0 else 5) + LoopRank(s.loop)
  }

  function Measure(s: State, f: Focus): nat {
    Phases(s) + FocusWork(s, f) + Rest(s)
  }

  /** The part whose next step brings the focus forward. */
  function Helper(s: State, f: Focus): Option<Part> {
    if CanAct(s, EventLoop) then Some(EventLoop)
    else match f
         case OnSide(d) =>
           if !s.Gone(Copier(d)) then Some(Goroutine(Copier(d)))
           else if !s.Gone(Forwarder(d)) then Some(Goroutine(Forwarder(d)))
           else None
         case OnToken(w) => if s.Announcing(w) then Some(Goroutine(w)) else None
         case OnError => None
  }

  ghost predicate Ready(s: State, f: Focus) {
    Inv(s) && (f.OnSide? ==> s.chan.At(f.d).closed)
  }

  lemma HelperCanAct(s: State, f: Focus)
    requires Ready(s, f) && !s.loop.Returned? && Helper(s, f).Some?
    ensures CanAct(s, Helper(s, f).value)
  {
  }

  lemma CopyPhases(s: State, d: Side, step: CopyStep)
    requires TokenInv(s) && CopyEnabled(s, d, step)
    ensures var t := ApplyCopy(s, d, step);
            && Phases(t) <= Phases(s)
            && (step.AnnounceCopy? || t.copier.At(d).pc.CopyAnnouncing? ==> Phases(t) + 10 <= Phases(s))
  {
    var t := ApplyCopy(s, d, step);
    assert !s.Gone(Copier(d)) && !s.Recorded(Copier(d));
    assert forall w: Worker :: w != Copier(d) ==> Phase(t, w) == Phase(s, w);
    assert Phase(t, Copier(d)) <= Phase(s, Copier(d));
  }

  lemma CopyWorks(s: State, d: Side, step: CopyStep)
    requires CopyEnabled(s, d, step)
    ensures var t := ApplyCopy(s, d, step);
            SideWork(t, d) < SideWork(s, d) || step.AnnounceCopy? || t.copier.At(d).pc.CopyAnnouncing?
    ensures SideWork(ApplyCopy(s, d, step), d) <= SideWork(s, d)
  {
  }

  lemma CopyWorksOther(s: State, d: Side, step: CopyStep)
    requires CopyEnabled(s, d, step)
    ensures SideWork(ApplyCopy(s, d, step), d.Other()) == SideWork(s, d.Other())
  {
  }

  lemma CopyMeasure(s: State, d: Side, step: CopyStep, f: Focus)
    requires TokenInv(s) && CopyEnabled(s, d, step)
    ensures Measure(ApplyCopy(s, d, step), f) <= Measure(s, f)
    ensures f == OnSide(d) || step.AnnounceCopy? || ApplyCopy(s, d, step).copier.At(d).pc.CopyAnnouncing? ==>
              Measure(ApplyCopy(s, d, step), f) < Measure(s, f)
  {
    CopyPhases(s, d, step);
    CopyWorks(s, d, step);
    CopyWorksOther(s, d, step);
    assert Rest(ApplyCopy(s, d, step)) == Rest(s);
  }

  lemma ForwardPhases(s: State, d: Side, step: ForwardStep)
    requires TokenInv(s) && ForwardEnabled(s, d, step)
    ensures var t := ApplyForward(s, d, step);
            && Phases(t) <= Phases(s)
            && (step.AnnounceForward? || step.EndRange? ==> Phases(t) + 10 <= Phases(s))
  {
    var t := ApplyForward(s, d, step);
    assert !s.Gone(Forwarder(d)) && !s.Recorded(Forwarder(d));
    assert forall w: Worker :: w != Forwarder(d) ==> Phase(t, w) == Phase(s, w);
    assert Phase(t, Forwarder(d)) <= Phase(s, Forwarder(d));
  }

  lemma ForwardWorks(s: State, d: Side, step: ForwardStep)
    requires ForwardEnabled(s, d, step)
    ensures var t := ApplyForward(s, d, step);
            SideWork(t, d) < SideWork(s, d) || step.AnnounceForward? || step.EndRange?
    ensures SideWork(ApplyForward(s, d, step), d) <= SideWork(s, d)
  {
  }

  lemma ForwardWorksOther(s: State, d: Side, step: ForwardStep)
    requires ForwardEnabled(s, d, step)
    ensures SideWork(ApplyForward(s, d, step), d.Other()) == SideWork(s, d.Other())
  {
  }

  lemma ForwardMeasure(s: State, d: Side, step: ForwardStep, f: Focus)
    requires TokenInv(s) && ForwardEnabled(s, d, step)
    ensures Measure(ApplyForward(s, d, step), f) <= Measure(s, f)
    ensures f == OnSide(d) || step.AnnounceForward? || step.EndRange? || step.Raise? ==>
              Measure(ApplyForward(s, d, step), f) < Measure(s, f)
  {
    ForwardPhases(s, d, step);
    ForwardWorks(s, d, step);
    ForwardWorksOther(s, d, step);
    assert Rest(ApplyForward(s, d, step)) <= Rest(s) - if step.Raise? then 5 else 0;
  }

  lemma RecordPhases(s: State, w: Worker)
    requires s.Gone(w) && !s.Recorded(w)
    ensures Phases(Record(s, w)) == Phases(s) - 10
  {
  }

  lemma TakeTokenPhases(s: State)
    requires TokenInv(s) && LoopEnabled(s, TakeToken)
    ensures Phases(ApplyLoop(s, TakeToken)) == Phases(s) - 10
  {
    var w := s.quit.value;
    assert s.Gone(w) && !s.Recorded(w);
    assert Phases(s.(quit := None)) == Phases(s);
    RecordPhases(s.(quit := None), w);
  }

  lemma TakeTokenRest(s: State)
    requires LoopEnabled(s, TakeToken)
    ensures Rest(ApplyLoop(s, TakeToken)) <= Rest(s) + 4
  {
  }

  lemma TakeTokenWork(s: State, d: Side)
    requires LoopEnabled(s, TakeToken)
    ensures SideWork(ApplyLoop(s, TakeToken), d) == SideWork(s, d)
  {
  }

  lemma TakeTokenMeasure(s: State, f: Focus)
    requires TokenInv(s) && LoopEnabled(s, TakeToken)
    ensures Measure(ApplyLoop(s, TakeToken), f) < Measure(s, f)
  {
    TakeTokenPhases(s);
    TakeTokenRest(s);
    if f.OnSide? {
      TakeTokenWork(s, f.d);
    }
  }

  lemma ContinuePhases(s: State)
    requires LoopEnabled(s, Continue)
    ensures var t := ApplyLoop(s, Continue);
            Phases(t) == Phases(s) && (!t.loop.Returned? ==> Rest(t) < Rest(s))
  {
    ContinueKeepsParts(s);
    SamePhases(s, ApplyLoop(s, Continue));
    ContinueRest(s);
  }

  lemma SamePhases(s: State, t: State)
    requires SameParts(s, t)
    ensures Phases(t) == Phases(s)
  {
  }

  lemma ContinueRest(s: State)
    requires LoopEnabled(s, Continue)
    ensures var t := ApplyLoop(s, Continue); !t.loop.Returned? ==> LoopRank(t.loop) < LoopRank(s.loop)
  {
  }

  lemma ContinueMeasure(s: State, f: Focus)
    requires LoopEnabled(s, Continue) && !ApplyLoop(s, Continue).loop.Returned?
    ensures Measure(ApplyLoop(s, Continue), f) < Measure(s, f)
  {
    ContinuePhases(s);
    if f.OnSide? {
      ContinueWork(s, f.d);
    }
  }

  lemma ContinueWork(s: State, d: Side)
    requires LoopEnabled(s, Continue)
    ensures SideWork(ApplyLoop(s, Continue), d) == SideWork(s, d)
  {
    LoopIsQuiet(s, Continue, d);
    ContinueKeepsParts(s);
  }

  lemma PeerMeasure(s: State, d: Side, e: PeerEvent, f: Focus)
    requires Ready(s, f) && Enabled(s, Peer(d, e))
    ensures Measure(Apply(s, Peer(d, e)), f) == Measure(s, f)
  {
    var t := Apply(s, Peer(d, e));
    assert forall w: Worker :: Phase(t, w) == Phase(s, w);
    assert f.OnSide? ==> SideWork(t, f.d) == SideWork(s, f.d);
  }

  lemma LoopMeasure(s: State, step: LoopStep, f: Focus)
    requires Ready(s, f) && LoopEnabled(s, step) && !ApplyLoop(s, step).loop.Returned?
    ensures Measure(ApplyLoop(s, step), f) < Measure(s, f)
  {
    if step.TakeToken? { TakeTokenMeasure(s, f); } else { ContinueMeasure(s, f); }
  }

  /** A worker's own step lowers the measure if the worker is the one waited for. */
  lemma HelpersCopy(s: State, d: Side, step: CopyStep, f: Focus)
    requires CopyEnabled(s, d, step) && Helper(s, f) == Some(Goroutine(Copier(d)))
    ensures f == OnSide(d) || step.AnnounceCopy?
  {
  }

  lemma HelpersForward(s: State, d: Side, step: ForwardStep, f: Focus)
    requires ForwardEnabled(s, d, step) && Helper(s, f) == Some(Goroutine(Forwarder(d)))
    ensures f == OnSide(d) || step.AnnounceForward?
  {
  }

  /** Every step keeps or lowers the measure, and the helper's step lowers it. */
  lemma StepMeasure(s: State, a: Action, f: Focus)
    requires Ready(s, f) && Enabled(s, a) && !s.loop.Returned? && !Apply(s, a).loop.Returned?
    ensures Measure(Apply(s, a), f) <= Measure(s, f)
    ensures PartOf(a).Some? && PartOf(a) == Helper(s, f) ==> Measure(Apply(s, a), f) < Measure(s, f)
  {
    match a
    case Peer(d, e) => PeerMeasure(s, d, e, f);
    case Copy(d, step) =>
      CopyMeasure(s, d, step, f);
      if PartOf(a) == Helper(s, f) { HelpersCopy(s, d, step, f); }
    case Forward(d, step) =>
      ForwardMeasure(s, d, step, f);
      if PartOf(a) == Helper(s, f) { HelpersForward(s, d, step, f); }
    case Loop(step) => LoopMeasure(s, step, f);
    case Stutter =>
  }

  /** As long as the measure is not lowered the helper stays the same. */
  lemma StepHelper(s: State, a: Action, f: Focus)
    requires Ready(s, f) && Enabled(s, a) && !s.loop.Returned? && !Apply(s, a).loop.Returned?
    ensures Measure(Apply(s, a), f) < Measure(s, f) || Helper(Apply(s, a), f) == Helper(s, f)
  {
    match a
    case Peer(d, e) =>
    case Copy(d, step) =>
      CopyMeasure(s, d, step, f);
      if f != OnSide(d) && !step.AnnounceCopy? && !ApplyCopy(s, d, step).copier.At(d).pc.CopyAnnouncing? {
        CopyHelper(s, d, step, f);
      }
    case Forward(d, step) =>
      ForwardMeasure(s, d, step, f);
      if f != OnSide(d) && !step.AnnounceForward? && !step.EndRange? && !step.Raise? {
        ForwardHelper(s, d, step, f);
      }
    case Loop(step) => LoopMeasure(s, step, f);
    case Stutter =>
  }

  lemma CopyHelper(s: State, d: Side, step: CopyStep, f: Focus)
    requires CopyEnabled(s, d, step) && !step.AnnounceCopy? && f != OnSide(d)
    requires !ApplyCopy(s, d, step).copier.At(d).pc.CopyAnnouncing?
    ensures Helper(ApplyCopy(s, d, step), f) == Helper(s, f)
  {
  }

  lemma ForwardHelper(s: State, d: Side, step: ForwardStep, f: Focus)
    requires ForwardEnabled(s, d, step) && f != OnSide(d)
    requires !step.AnnounceForward? && !step.EndRange? && !step.Raise?
    ensures Helper(ApplyForward(s, d, step), f) == Helper(s, f)
  {
  }

  // ---- invariants of the event loop ---------------------------------------------------------------

  /** Past the test for side `d` in the body of the event loop. */
  predicate Past(pc: LoopPc, d: Side) {
    pc.Select? || pc.TestAll? || (d.Left? && pc.TestRight?)
  }

  /** Back at the select some flag is unset; once a side is over, the other side has been closed or its
      requests have ended. */
  ghost predicate LoopInv(s: State) {
    && (s.loop.Select? ==> !s.AllRecorded())
    && forall d: Side :: Past(s.loop, d) && s.eofSeen.At(d) && s.reqsDone.At(d) ==>
         Close in s.chan.At(d.Other()).ops || s.reqsDone.At(d.Other())
  }

  lemma BesideLoopInv(s: State, t: State)
    requires LoopInv(s) && Besides(s, t)
    ensures LoopInv(t)
  {
    forall d: Side | Past(t.loop, d) && t.eofSeen.At(d) && t.reqsDone.At(d)
      ensures Close in t.chan.At(d.Other()).ops || t.reqsDone.At(d.Other())
    {
      assert s.chan.At(d.Other()).ops <= t.chan.At(d.Other()).ops;
    }
  }

  lemma StepKeepsLoopInv(s: State, a: Action)
    requires LoopInv(s) && Enabled(s, a)
    ensures LoopInv(Apply(s, a))
  {
    if a.Loop? {
      LoopKeepsLoopInv(s, a.loopStep);
    } else {
      WorkersBeside(s, a);
      BesideLoopInv(s, Apply(s, a));
    }
  }

  lemma LoopKeepsLoopInv(s: State, step: LoopStep)
    requires LoopInv(s) && LoopEnabled(s, step)
    ensures LoopInv(ApplyLoop(s, step))
  {
  }

  // ---- infinite runs ------------------------------------------------------------------------------

  lemma {:induction false} RunInv(run: nat -> State, act: nat -> Action, n: nat)
    requires IsRun(run, act)
    ensures Inv(run(n)) && LoopInv(run(n))
  {
    if n == 0 {
      InitInv();
    } else {
      RunInv(run, act, n - 1);
      assert Enabled(run(n - 1), act(n - 1));
      StepKeepsInv(run(n - 1), act(n - 1));
      StepKeepsLoopInv(run(n - 1), act(n - 1));
    }
  }

  /** What a later state keeps: closed channels, set flags and the end of `pipe`. */
  ghost predicate Keeps(s: State, t: State) {
    && (forall d: Side :: s.chan.At(d).closed ==> t.chan.At(d).closed)
    && (forall w: Worker :: s.Recorded(w) ==> t.Recorded(w))
    && (s.loop.Returned? ==> t.loop.Returned?)
    && (s.errch ==> t.errch || t.loop.Returned?)
  }

  lemma StepKeeps(s: State, a: Action)
    requires Enabled(s, a)
    ensures Keeps(s, Apply(s, a))
  {
    if a.Loop? {
      LoopKeeps(s, a.loopStep);
    } else {
      WorkersBeside(s, a);
    }
  }

  lemma LoopKeeps(s: State, step: LoopStep)
    requires LoopEnabled(s, step)
    ensures Keeps(s, ApplyLoop(s, step))
  {
  }

  lemma {:induction false} RunKeeps(run: nat -> State, act: nat -> Action, n: nat, m: nat)
    requires IsRun(run, act) && n <= m
    ensures Keeps(run(n), run(m))
    decreases m
  {
    if n < m {
      RunKeeps(run, act, n, m - 1);
      assert Enabled(run(m - 1), act(m - 1));
      StepKeeps(run(m - 1), act(m - 1));
    }
  }

  ghost predicate FairRun(run: nat -> State, act: nat -> Action) {
    IsRun(run, act) && Fair(run, act)
  }

  /** `pipe` has returned or nothing is left to be done for the focus. */
  predicate Done(s: State, f: Focus) {
    s.loop.Returned? || Helper(s, f).None?
  }

  /** One step of a run before `pipe` returns, as the measure sees it. */
  lemma RunStep(run: nat -> State, act: nat -> Action, i: nat, f: Focus)
    requires IsRun(run, act) && (f.OnSide? ==> run(i).chan.At(f.d).closed)
    requires !run(i).loop.Returned? && !run(i + 1).loop.Returned?
    ensures Measure(run(i + 1), f) <= Measure(run(i), f)
    ensures PartOf(act(i)).Some? && PartOf(act(i)) == Helper(run(i), f) ==> Measure(run(i + 1), f) < Measure(run(i), f)
    ensures Measure(run(i + 1), f) < Measure(run(i), f) || Helper(run(i + 1), f) == Helper(run(i), f)
  {
    RunInv(run, act, i);
    assert Enabled(run(i), act(i));
    StepMeasure(run(i), act(i), f);
    StepHelper(run(i), act(i), f);
  }

  /** Up to step `k`, at which fairness serves the helper, the helper stays or the measure is lowered. */
  lemma {:induction false} Follow(run: nat -> State, act: nat -> Action, i: nat, k: nat, f: Focus, p: Part)
    returns (m: nat)
    requires IsRun(run, act) && i <= k && (!CanAct(run(k), p) || PartOf(act(k)) == Some(p))
    requires !run(i).loop.Returned? && Helper(run(i), f) == Some(p)
    requires f.OnSide? ==> run(i).chan.At(f.d).closed
    ensures i <= m
    ensures run(m).loop.Returned? || Measure(run(m), f) < Measure(run(i), f)
    decreases k - i
  {
    m := i + 1;
    if run(m).loop.Returned? { return; }
    RunStep(run, act, i, f);
    if i == k {
      RunInv(run, act, i);
      HelperCanAct(run(i), f);
    } else if Measure(run(m), f) >= Measure(run(i), f) {
      RunKeeps(run, act, i, m);
      m := Follow(run, act, i + 1, k, f, p);
    }
  }

  lemma Served(run: nat -> State, act: nat -> Action, p: Part, n: nat) returns (k: nat)
    requires Fair(run, act)
    ensures n <= k && (!CanAct(run(k), p) || PartOf(act(k)) == Some(p))
  {
    assert FairAt(run, act, p, n);
    k :| n <= k && (!CanAct(run(k), p) || PartOf(act(k)) == Some(p));
  }

  lemma Advance(run: nat -> State, act: nat -> Action, n: nat, f: Focus) returns (m: nat)
    requires FairRun(run, act) && !Done(run(n), f)
    requires f.OnSide? ==> run(n).chan.At(f.d).closed
    ensures n <= m
    ensures run(m).loop.Returned? || Measure(run(m), f) < Measure(run(n), f)
  {
    var p := Helper(run(n), f).value;
    var k := Served(run, act, p, n);
    m := Follow(run, act, n, k, f, p);
  }

  lemma {:induction false} Drain(run: nat -> State, act: nat -> Action, n: nat, f: Focus) returns (m: nat)
    requires FairRun(run, act)
    requires f.OnSide? ==> run(n).chan.At(f.d).closed
    ensures n <= m && Done(run(m), f)
    decreases Measure(run(n), f)
  {
    if Done(run(n), f) {
      m := n;
    } else {
      m := Advance(run, act, n, f);
      if !run(m).loop.Returned? {
        RunKeeps(run, act, n, m);
        m := Drain(run, act, m, f);
      }
    }
  }

  /** Once a side is drained its two flags are set. */
  lemma DrainedSide(s: State, d: Side)
    requires TokenInv(s) && LoopInv(s) && !s.loop.Returned? && Helper(s, OnSide(d)).None?
    requires s.Gone(Forwarder(d.Other())) ==> s.chan.At(d.Other()).closed
    ensures s.loop.Select? && s.eofSeen.At(d) && s.reqsDone.At(d)
    ensures Close in s.chan.At(d.Other()).ops || s.chan.At(d.Other()).closed
  {
    assert s.Gone(Copier(d)) && s.Recorded(Copier(d));
    assert s.Gone(Forwarder(d)) && s.Recorded(Forwarder(d));
    assert s.Recorded(Forwarder(d.Other())) ==> s.Gone(Forwarder(d.Other()));
  }

  /** Once both sides are drained `pipe` has returned. */
  lemma BothDrained(s: State, d: Side)
    requires Inv(s) && LoopInv(s) && s.Recorded(Copier(d)) && s.Recorded(Forwarder(d)) && Done(s, OnSide(d.Other()))
    ensures s.loop.Returned?
  {
    if !s.loop.Returned? {
      DrainedSide(s, d.Other());
    }
  }

  /** If one side ends both of its streams then `pipe` returns. */
  lemma PipeReturns(run: nat -> State, act: nat -> Action, n: nat, d: Side) returns (m: nat)
    requires FairRun(run, act) && PeersAnswerClose(run)
    requires run(n).chan.At(d).closed
    ensures n <= m && run(m).loop.Returned?
  {
    var o := d.Other();
    m := Drain(run, act, n, OnSide(d));
    if !run(m).loop.Returned? {
      RunInv(run, act, m);
      DrainedSide(run(m), d);
      var k := m;
      if !run(m).chan.At(o).closed {
        assert ClosedAfter(run, o, m);
        k :| m <= k && run(k).chan.At(o).closed;
      }
      var l := Drain(run, act, k, OnSide(o));
      RunInv(run, act, l);
      RunKeeps(run, act, m, l);
      assert run(m).Recorded(Copier(d)) && run(m).Recorded(Forwarder(d));
      BothDrained(run(l), d);
      m := l;
    }
  }

  /** A worker waiting to send on `quit` gets through unless `pipe` returns first. */
  lemma TokenGetsThrough(run: nat -> State, act: nat -> Action, n: nat, w: Worker) returns (m: nat)
    requires FairRun(run, act) && run(n).Announcing(w)
    ensures n <= m && (run(m).loop.Returned? || !run(m).Announcing(w))
  {
    m := Drain(run, act, n, OnToken(w));
  }

  /** A buffered error makes `pipe` return, although the select may first serve `quit`. */
  lemma ErrorEndsPipe(run: nat -> State, act: nat -> Action, n: nat) returns (m: nat)
    requires FairRun(run, act) && run(n).errch
    ensures n <= m && run(m).loop.Returned?
  {
    m := Drain(run, act, n, OnError);
    RunKeeps(run, act, n, m);
  }
}
