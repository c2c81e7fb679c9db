/** Requests, answers and errors: which calls succeed, and what a nil return says about them. */
module PipeDelivery {
  import opened Pipe
  import opened PipeSafety
  import opened PipeTheorems

  // ---- calls and their failures --------------------------------------------------------------------

  /** The requests that were sent without an error. */
  function SentOf(ops: seq<Op>): seq<Request> {
    if ops == [] then [] else
    var op := ops[|ops| - 1];
    SentOf(ops[..|ops| - 1]) + if op.Ask? && !op.failed then [op.req] else []
  }

  /** The answers that were delivered. */
  function GivenOf(ops: seq<Op>): seq<bool> {
    if ops == [] then [] else
    var op := ops[|ops| - 1];
    GivenOf(ops[..|ops| - 1]) + if op.Answer? && !op.lost then [op.ok] else []
  }

  /** For each SendRequest, whether it failed. */
  function FailuresOf(ops: seq<Op>): seq<bool> {
    if ops == [] then [] else
    var op := ops[|ops| - 1];
    FailuresOf(ops[..|ops| - 1]) + if op.Ask? then [op.failed] else []
  }

  /** For each Reply, whether it was lost. */
  function LossesOf(ops: seq<Op>): seq<bool> {
    if ops == [] then [] else
    var op := ops[|ops| - 1];
    LossesOf(ops[..|ops| - 1]) + if op.Answer? then [op.lost] else []
  }

  /** The elements of `xs` that are not marked. */
  function Without<T>(xs: seq<T>, marked: seq<bool>): seq<T>
    requires |marked| == |xs|
  {
    if xs == [] then [] else
    var k := |xs| - 1;
    Without(xs[..k], marked[..k]) + if marked[k] then [] else [xs[k]]
  }

  lemma WithoutSnoc<T>(xs: seq<T>, marked: seq<bool>, x: T, mark: bool)
    requires |marked| == |xs|
    ensures Without(xs + [x], marked + [mark]) == Without(xs, marked) + if mark then [] else [x]
  {
    assert (xs + [x])[..|xs|] == xs && (marked + [mark])[..|xs|] == marked;
  }

  lemma {:induction false} SentIsWithoutFailures(ops: seq<Op>)
    ensures |FailuresOf(ops)| == |AsksOf(ops)| && SentOf(ops) == Without(AsksOf(ops), FailuresOf(ops))
  {
    if ops != [] {
      var op, head := ops[|ops| - 1], ops[..|ops| - 1];
      SentIsWithoutFailures(head);
      if op.Ask? {
        WithoutSnoc(AsksOf(head), FailuresOf(head), op.req, op.failed);
      } else {
        assert AsksOf(ops) == AsksOf(head) && FailuresOf(ops) == FailuresOf(head) && SentOf(ops) == SentOf(head);
      }
    }
  }

  lemma {:induction false} GivenIsWithoutLosses(ops: seq<Op>)
    ensures |LossesOf(ops)| == |AnswersOf(ops)| && GivenOf(ops) == Without(AnswersOf(ops), LossesOf(ops))
  {
    if ops != [] {
      var op, head := ops[|ops| - 1], ops[..|ops| - 1];
      GivenIsWithoutLosses(head);
      if op.Answer? {
        WithoutSnoc(AnswersOf(head), LossesOf(head), op.ok, op.lost);
      } else {
        assert AnswersOf(ops) == AnswersOf(head) && LossesOf(ops) == LossesOf(head) && GivenOf(ops) == GivenOf(head);
      }
    }
  }

  predicate FailedOp(op: Op) {
    (op.Ask? && op.failed) || (op.Answer? && op.lost)
  }

  predicate Fails(ops: seq<Op>) {
    exists op :: op in ops && FailedOp(op)
  }

  predicate AnyFailure(s: State) {
    Fails(s.chan.left.ops) || Fails(s.chan.right.ops)
  }

  lemma FailsSnoc(ops: seq<Op>, op: Op)
    ensures Fails(ops + [op]) <==> Fails(ops) || FailedOp(op)
  {
    assert op in ops + [op];
    assert forall o :: o in ops + [op] <==> o in ops || o == op;
  }

  /** All calls succeed exactly when as many requests and answers go out as were tried. */
  lemma {:induction false} FailureCounts(ops: seq<Op>)
    ensures |SentOf(ops)| <= |AsksOf(ops)| && |GivenOf(ops)| <= |AnswersOf(ops)|
    ensures Fails(ops) <==> |SentOf(ops)| < |AsksOf(ops)| || |GivenOf(ops)| < |AnswersOf(ops)|
    ensures !Fails(ops) ==> SentOf(ops) == AsksOf(ops) && GivenOf(ops) == AnswersOf(ops)
  {
    if ops != [] {
      var op, head := ops[|ops| - 1], ops[..|ops| - 1];
      FailureCounts(head);
      FailsSnoc(head, op);
      assert ops == head + [op];
    }
  }

  // ---- requests and answers ------------------------------------------------------------------------

  /** Each request of a side is tried once on the other, unchanged and in order, and those that go out are those
      for which the call succeeds.  The answers tried are the far side's results, in order, for the requests that
      want one, and those that go out are those for which the call succeeds. */
  lemma RequestsForwarded(s: State, d: Side)
    requires Reachable(s)
    ensures var c, out := s.chan.At(d), s.chan.At(d.Other()).ops;
            && |c.answers| <= |c.requests| && |FailuresOf(out)| == |c.answers|
            && |LossesOf(c.ops)| == |AnswersOf(c.ops)|
            && var asks := c.requests[..|c.answers|];
            && AsksOf(out) == asks && SentOf(out) == Without(asks, FailuresOf(out))
            && AnswersOf(c.ops) <= Owed(asks, c.answers)
            && GivenOf(c.ops) == Without(AnswersOf(c.ops), LossesOf(c.ops))
  {
    ReachableInv(s);
    OwedPrefix(s.chan.At(d), s.forwarder.At(d), AsksOf(s.chan.At(d.Other()).ops), AnswersOf(s.chan.At(d).ops));
    SentIsWithoutFailures(s.chan.At(d.Other()).ops);
    GivenIsWithoutLosses(s.chan.At(d).ops);
  }

  lemma OwedPrefix(c: Channel, pc: ForwardPc, asks: seq<Request>, replies: seq<bool>)
    requires Forwarding(c, pc, asks, replies)
    ensures replies <= Owed(asks, c.answers)
  {
    var k := |c.answers|;
    assert c.answers[..k] == c.answers;
    if k > 0 {
      OwedNext(c.requests, c.answers, k - 1);
    }
  }

  /** After a nil return every request of the other side has been tried, and every answer that is wanted. */
  lemma AllRequestsHandled(s: State, d: Side)
    requires Reachable(s) && s.loop == Returned(false)
    ensures var c := s.chan.At(d);
            && |c.answers| == |c.requests|
            && AsksOf(s.chan.At(d.Other()).ops) == c.requests
            && AnswersOf(c.ops) == Owed(c.requests, c.answers)
  {
    ReachableInv(s);
    NilReturn(s);
    assert s.Gone(Forwarder(d));
    assert s.chan.At(d).requests[..|s.chan.At(d).requests|] == s.chan.At(d).requests;
  }

  /** Every request of side `d` went out, and so did every answer to it that is wanted. */
  predicate Delivered(s: State, d: Side)
  {
    var c := s.chan.At(d);
    && |c.answers| == |c.requests|
    && SentOf(s.chan.At(d.Other()).ops) == c.requests && GivenOf(c.ops) == Owed(c.requests, c.answers)
  }

  lemma DeliveredIffNoFailure(s: State)
    requires Reachable(s) && s.loop == Returned(false)
    ensures Delivered(s, Left) && Delivered(s, Right) <==> !AnyFailure(s)
  {
    AllRequestsHandled(s, Left);
    AllRequestsHandled(s, Right);
    FailureCounts(s.chan.left.ops);
    FailureCounts(s.chan.right.ops);
  }

  // ---- errors --------------------------------------------------------------------------------------

  /** The step is a SendRequest that fails or a reply that is lost. */
  predicate FailsNow(a: Action) {
    a.Forward? && ((a.forwardStep.Send? && a.forwardStep.failed) || (a.forwardStep.Reply? && a.forwardStep.undelivered))
  }

  /** A failure of the request in hand that has not been sent on `errch` yet. */
  predicate Unraised(pc: ForwardPc) {
    (pc.Logging? && pc.failed) || pc.Raising? || pc.RaisingReply?
  }

  predicate AnyUnraised(s: State) {
    Unraised(s.forwarder.left) || Unraised(s.forwarder.right)
  }

  lemma SendFails(s: State, d: Side, ok: bool, failed: bool)
    requires ForwardEnabled(s, d, Send(ok, failed))
    ensures AnyFailure(ApplyForward(s, d, Send(ok, failed))) <==> AnyFailure(s) || failed
  {
    var req := s.forwarder.At(d).req;
    assert ApplyForward(s, d, Send(ok, failed)).chan.At(d.Other()).ops == s.chan.At(d.Other()).ops + [Ask(req, failed)];
    FailsSnoc(s.chan.At(d.Other()).ops, Ask(req, failed));
  }

  lemma ReplyFails(s: State, d: Side, undelivered: bool)
    requires ForwardEnabled(s, d, Reply(undelivered))
    ensures AnyFailure(ApplyForward(s, d, Reply(undelivered))) <==> AnyFailure(s) || undelivered
  {
    FailsSnoc(s.chan.At(d).ops, Answer(s.forwarder.At(d).ok, undelivered));
  }

  lemma CopyFails(s: State, d: Side, step: CopyStep)
    requires CopyEnabled(s, d, step)
    ensures AnyFailure(ApplyCopy(s, d, step)) <==> AnyFailure(s)
  {
    if step.Write? {
      FailsSnoc(s.chan.At(d.Other()).ops, Data(s.copier.At(d).pc.chunk[..step.accepted]));
    }
  }

  lemma PerformFails(s: State, d: Side, op: Op)
    requires !FailedOp(op)
    ensures AnyFailure(Perform(s, d, op)) <==> AnyFailure(s)
  {
    FailsSnoc(s.chan.At(d).ops, op);
  }

  lemma ReturnFails(s: State, failed: bool)
    ensures AnyFailure(Return(s, failed)) <==> AnyFailure(s)
  {
    PerformFails(s, Left, DeferredClose);
    PerformFails(Perform(s, Left, DeferredClose), Right, DeferredClose);
  }

  lemma LoopFails(s: State, step: LoopStep)
    requires LoopEnabled(s, step)
    ensures AnyFailure(ApplyLoop(s, step)) <==> AnyFailure(s)
  {
    if step.TakeError? {
      ReturnFails(s.(errch := false), true);
    } else if step.Continue? {
      match s.loop
      case HalfClose(d) => PerformFails(s, d, CloseWrite);
      case TestLeft => PerformFails(s, Right, Close);
      case TestRight => PerformFails(s, Left, Close);
      case TestAll => ReturnFails(s, false);
    }
  }

  lemma ForwardFails(s: State, d: Side, step: ForwardStep)
    requires ForwardEnabled(s, d, step)
    ensures AnyFailure(ApplyForward(s, d, step)) <==> AnyFailure(s) || FailsNow(Forward(d, step))
  {
    match step
    case Send(ok, failed) => SendFails(s, d, ok, failed);
    case Reply(undelivered) => ReplyFails(s, d, undelivered);
    case _ =>
  }

  lemma StepFails(s: State, a: Action)
    requires Enabled(s, a)
    ensures AnyFailure(Apply(s, a)) <==> AnyFailure(s) || FailsNow(a)
  {
    match a
    case Peer(d, e) =>
    case Copy(d, step) => CopyFails(s, d, step);
    case Forward(d, step) => ForwardFails(s, d, step);
    case Loop(step) => LoopFails(s, step);
    case Stutter =>
  }

  /** Until an error return, there is a failure exactly when one is buffered in `errch` or about to be sent there. */
  predicate ErrorInv(s: State) {
    s.loop != Returned(true) ==> (AnyFailure(s) <==> s.errch || AnyUnraised(s))
  }

  lemma ForwardKeepsErrors(s: State, d: Side, step: ForwardStep)
    requires ForwardEnabled(s, d, step) && ErrorInv(s)
    ensures ErrorInv(ApplyForward(s, d, step))
  {
    ForwardFails(s, d, step);
  }

  lemma StepKeepsErrors(s: State, a: Action)
    requires Enabled(s, a) && ErrorInv(s)
    ensures ErrorInv(Apply(s, a))
  {
    match a
    case Peer(d, e) =>
    case Copy(d, step) => CopyFails(s, d, step);
    case Forward(d, step) => ForwardKeepsErrors(s, d, step);
    case Loop(step) => LoopFails(s, step);
    case Stutter =>
  }

  lemma {:induction false} RunKeepsErrors(s: State, acts: seq<Action>)
    requires Runs(s, acts) && ErrorInv(s)
    ensures ErrorInv(Exec(s, acts))
    ensures AnyFailure(Exec(s, acts)) <==> AnyFailure(s) || exists a :: a in acts && FailsNow(a)
    decreases |acts|
  {
    if acts != [] {
      StepKeepsErrors(s, acts[0]);
      StepFails(s, acts[0]);
      RunKeepsErrors(Apply(s, acts[0]), acts[1..]);
      assert forall a :: a in acts <==> a == acts[0] || a in acts[1..];
    }
  }

  /** After a nil return an error is still buffered in `errch` exactly when some SendRequest or Reply of the run has
      failed. */
  lemma ErrorAtNilReturn(acts: seq<Action>)
    requires Runs(Init(), acts) && Exec(Init(), acts).loop == Returned(false)
    ensures Exec(Init(), acts).errch <==> exists a :: a in acts && FailsNow(a)
  {
    var s := Exec(Init(), acts);
    RunKeepsErrors(Init(), acts);
    NilReturn(s);
    assert s.Gone(Forwarder(Left)) && s.Gone(Forwarder(Right));
  }

  /** After a nil return `errch` is empty exactly when every request of both sides went out, and every answer. */
  lemma AllDelivered(s: State)
    requires Reachable(s) && s.loop == Returned(false)
    ensures !s.errch <==> Delivered(s, Left) && Delivered(s, Right)
  {
    var acts :| Runs(Init(), acts) && Exec(Init(), acts) == s;
    RunKeepsErrors(Init(), acts);
    ErrorAtNilReturn(acts);
    DeliveredIffNoFailure(s);
  }

  // ---- after Close ---------------------------------------------------------------------------------

  /** How many requests of side `d` have been dealt with, up to their answer. */
  function Handled(c: Channel, pc: ForwardPc): int {
    |c.answers| - if pc.Logging? || pc.Raising? || pc.Replying? then 1 else 0
  }

  lemma OwedHandled(c: Channel, pc: ForwardPc, asks: seq<Request>, replies: seq<bool>)
    requires Forwarding(c, pc, asks, replies)
    ensures var n := Handled(c, pc);
            0 <= n <= |c.answers| && n <= |c.requests| && replies == Owed(c.requests[..n], c.answers[..n])
  {
    assert c.answers[..|c.answers|] == c.answers;
  }

  lemma {:induction false} AnswersSplit(ops: seq<Op>, k: nat)
    requires k <= |ops|
    ensures |AnswersOf(ops[..k])| <= |AnswersOf(ops)|
    ensures |AnswersOf(ops[..k])| < |AnswersOf(ops)| <==> exists j :: k <= j < |ops| && ops[j].Answer?
    decreases |ops|
  {
    if k == |ops| {
      assert ops[..k] == ops;
    } else {
      var n := |ops| - 1;
      AnswersSplit(ops[..n], k);
      assert ops[..n][..k] == ops[..k];
      assert forall j | k <= j < n :: ops[..n][j] == ops[j];
    }
  }

  /** An answer is attempted on a channel after the event loop has closed it, exactly when by then fewer answers had
      been given than are owed to the requests of that channel dealt with so far. */
  lemma AnswerAfterCloseIff(s: State, d: Side, k: nat)
    requires Reachable(s) && k < |s.chan.At(d).ops| && s.chan.At(d).ops[k].Close?
    ensures var c, n := s.chan.At(d), Handled(s.chan.At(d), s.forwarder.At(d));
            && 0 <= n <= |c.answers| && n <= |c.requests| && (s.loop == Returned(false) ==> n == |c.requests|)
            && ((exists j :: k < j < |c.ops| && c.ops[j].Answer?) <==>
                |AnswersOf(c.ops[..k])| < |Owed(c.requests[..n], c.answers[..n])|)
  {
    ReachableInv(s);
    var c := s.chan.At(d);
    OwedHandled(c, s.forwarder.At(d), AsksOf(s.chan.At(d.Other()).ops), AnswersOf(c.ops));
    AnswersAfter(c.ops, k);
    if s.loop == Returned(false) {
      NilReturn(s);
      AllRequestsHandled(s, d);
      assert s.Gone(Forwarder(d));
    }
  }

  lemma AnswersAfter(ops: seq<Op>, k: nat)
    requires k < |ops| && !ops[k].Answer?
    ensures (exists j :: k < j < |ops| && ops[j].Answer?) <==> |AnswersOf(ops[..k])| < |AnswersOf(ops)|
  {
    AnswersSplit(ops, k);
    if j :| k <= j < |ops| && ops[j].Answer? {
      assert k < j;
    }
  }

  /** Nothing goes out on a channel once it is closed. */
  predicate Silent(ops: seq<Op>) {
    forall i, j | 0 <= i < j < |ops| && (ops[i].Close? || ops[i].DeferredClose?) :: NotSent(ops[j])
  }

  predicate NotSent(op: Op) {
    match op
    case Data(bytes) => bytes == []
    case Ask(_, failed) => failed
    case Answer(_, lost) => lost
    case _ => true
  }

  lemma SilentSnoc(ops: seq<Op>, op: Op)
    requires Silent(ops) && (NotSent(op) || (Close !in ops && DeferredClose !in ops))
    ensures Silent(ops + [op])
  {
    var ext := ops + [op];
    forall i, j | 0 <= i < j < |ext| && (ext[i].Close? || ext[i].DeferredClose?)
      ensures NotSent(ext[j])
    {
      assert ext[i] == ops[i] && ops[i] in ops;
    }
  }

  ghost predicate BothSilent(s: State) {
    Silent(s.chan.left.ops) && Silent(s.chan.right.ops)
  }

  lemma PerformSilent(s: State, d: Side, op: Op)
    requires BothSilent(s) && (s.chan.At(d).Refuses() ==> NotSent(op))
    ensures BothSilent(Perform(s, d, op))
  {
    SilentSnoc(s.chan.At(d).ops, op);
  }

  lemma LoopSilent(s: State, step: LoopStep)
    requires LoopEnabled(s, step) && BothSilent(s)
    ensures BothSilent(ApplyLoop(s, step))
  {
    var t := s.(errch := false);
    if step.TakeError? {
      PerformSilent(t, Left, DeferredClose);
      PerformSilent(Perform(t, Left, DeferredClose), Right, DeferredClose);
    } else if step.Continue? {
      match s.loop
      case HalfClose(d) => PerformSilent(s, d, CloseWrite);
      case TestLeft => PerformSilent(s, Right, Close);
      case TestRight => PerformSilent(s, Left, Close);
      case TestAll =>
        PerformSilent(s, Left, DeferredClose);
        PerformSilent(Perform(s, Left, DeferredClose), Right, DeferredClose);
    }
  }

  lemma StepSilent(s: State, a: Action)
    requires Enabled(s, a) && BothSilent(s)
    ensures BothSilent(Apply(s, a))
  {
    match a
    case Peer(d, e) =>
    case Copy(d, step) =>
      if step.Write? {
        PerformSilent(s, d.Other(), Data(s.copier.At(d).pc.chunk[..step.accepted]));
      }
    case Forward(d, step) => ForwardSilent(s, d, step);
    case Loop(step) => LoopSilent(s, step);
    case Stutter =>
  }

  lemma ForwardSilent(s: State, d: Side, step: ForwardStep)
    requires ForwardEnabled(s, d, step) && BothSilent(s)
    ensures BothSilent(ApplyForward(s, d, step))
  {
    if step.Send? {
      PerformSilent(s, d.Other(), Ask(s.forwarder.At(d).req, step.failed));
    } else if step.Reply? && s.forwarder.At(d).req.wantReply {
      PerformSilent(s, d, Answer(s.forwarder.At(d).ok, step.undelivered));
    }
  }

  lemma {:induction false} RunSilent(s: State, acts: seq<Action>)
    requires Runs(s, acts) && BothSilent(s)
    ensures BothSilent(Exec(s, acts))
    decreases |acts|
  {
    if acts != [] {
      StepSilent(s, acts[0]);
      RunSilent(Apply(s, acts[0]), acts[1..]);
    }
  }

  /** In every reachable state, also after an error return: no byte, request or answer goes out on a channel that was
      closed here, so every answer that is attempted after Close is lost. */
  lemma NothingAfterClose(s: State, d: Side)
    requires Reachable(s)
    ensures Silent(s.chan.At(d).ops)
  {
    var acts :| Runs(Init(), acts) && Exec(Init(), acts) == s;
    RunSilent(Init(), acts);
  }
}
