/** What the states of the channel proxy say of the run that led to them: the steps that were taken, with what the
    peers sent and how each Read, Write, SendRequest and Reply went. */
module PipeRuns {
  import opened Common
  import opened Pipe
  import opened PipeSafety
  import opened PipeTheorems
  import opened PipeDelivery

  // ---- the steps of one side -------------------------------------------------------------------------

  function DataBy(a: Action, d: Side): seq<byte> {
    if a.Peer? && a.s == d && a.event.PeerData? then a.event.bytes else []
  }

  function RequestBy(a: Action, d: Side): seq<Request> {
    if a.Peer? && a.s == d && a.event.PeerRequest? then [a.event.req] else []
  }

  function ResultBy(a: Action, d: Side): seq<bool> {
    if a.Forward? && a.s == d && a.forwardStep.Send? then [a.forwardStep.ok] else []
  }

  function FailureBy(a: Action, d: Side): seq<bool> {
    if a.Forward? && a.s == d && a.forwardStep.Send? then [a.forwardStep.failed] else []
  }

  function WrittenBy(a: Action, d: Side): nat {
    if a.Copy? && a.s == d && a.copyStep.Write? then a.copyStep.accepted else 0
  }

  predicate EndsBy(a: Action, d: Side) {
    a.Peer? && a.s == d && (a.event.PeerEof? || a.event.PeerClose?)
  }

  predicate ClosesBy(a: Action, d: Side) {
    a.Peer? && a.s == d && a.event.PeerClose?
  }

  /** A Read or a Write of the copier fails. */
  predicate BreaksBy(a: Action, d: Side) {
    a.Copy? && a.s == d && ((a.copyStep.Read? && a.copyStep.end.Failed?) || (a.copyStep.Write? && a.copyStep.broke))
  }

  /** All that the peer of side `d` sent in the run. */
  function Arrived(acts: seq<Action>, d: Side): seq<byte> {
    if acts == [] then [] else DataBy(acts[0], d) + Arrived(acts[1..], d)
  }

  function Requested(acts: seq<Action>, d: Side): seq<Request> {
    if acts == [] then [] else RequestBy(acts[0], d) + Requested(acts[1..], d)
  }

  /** What SendRequest returned for the requests of side `d`, and whether it failed. */
  function Results(acts: seq<Action>, d: Side): seq<bool> {
    if acts == [] then [] else ResultBy(acts[0], d) + Results(acts[1..], d)
  }

  function Failures(acts: seq<Action>, d: Side): seq<bool> {
    if acts == [] then [] else FailureBy(acts[0], d) + Failures(acts[1..], d)
  }

  /** How many bytes the Writes of the copier from side `d` accepted. */
  function Written(acts: seq<Action>, d: Side): nat {
    if acts == [] then 0 else WrittenBy(acts[0], d) + Written(acts[1..], d)
  }

  predicate Breaks(acts: seq<Action>, d: Side) {
    exists a :: a in acts && BreaksBy(a, d)
  }

  // ---- one step --------------------------------------------------------------------------------------

  /** What the peer sent on side `d`. */
  ghost predicate Takes(c: Channel, a: Action, d: Side, c': Channel) {
    && c'.arrived == c.arrived + DataBy(a, d) && c'.requests == c.requests + RequestBy(a, d)
    && (c'.eof <==> c.eof || EndsBy(a, d)) && (c'.closed <==> c.closed || ClosesBy(a, d))
  }

  lemma CopyTakes(s: State, e: Side, step: CopyStep, d: Side)
    requires CopyEnabled(s, e, step)
    ensures Takes(s.chan.At(d), Copy(e, step), d, ApplyCopy(s, e, step).chan.At(d))
    ensures ApplyCopy(s, e, step).chan.At(d).answers == s.chan.At(d).answers
  {
  }

  lemma ForwardTakes(s: State, e: Side, step: ForwardStep, d: Side)
    requires ForwardEnabled(s, e, step)
    ensures Takes(s.chan.At(d), Forward(e, step), d, ApplyForward(s, e, step).chan.At(d))
    ensures ApplyForward(s, e, step).chan.At(d).answers == s.chan.At(d).answers + ResultBy(Forward(e, step), d)
  {
  }

  lemma StepTakes(s: State, a: Action, d: Side)
    requires Enabled(s, a)
    ensures Takes(s.chan.At(d), a, d, Apply(s, a).chan.At(d))
    ensures Apply(s, a).chan.At(d).answers == s.chan.At(d).answers + ResultBy(a, d)
  {
    match a
    case Peer(e, event) =>
    case Copy(e, step) => CopyTakes(s, e, step, d);
    case Forward(e, step) => ForwardTakes(s, e, step, d);
    case Loop(step) => LoopIsQuiet(s, step, d);
    case Stutter =>
  }

  lemma FailuresSnoc(ops: seq<Op>, op: Op)
    ensures FailuresOf(ops + [op]) == FailuresOf(ops) + if op.Ask? then [op.failed] else []
  {
    assert (ops + [op])[..|ops|] == ops;
  }

  /** What the copier and the forwarder of side `d` put on the other channel. */
  ghost predicate Puts(ops: seq<Op>, a: Action, d: Side, ops': seq<Op>) {
    && |DataOf(ops')| == |DataOf(ops)| + WrittenBy(a, d)
    && FailuresOf(ops') == FailuresOf(ops) + FailureBy(a, d)
  }

  lemma PerformPuts(s: State, e: Side, op: Op, x: Side)
    requires !op.Data? && !op.Ask?
    ensures var ops, ops' := s.chan.At(x).ops, Perform(s, e, op).chan.At(x).ops;
            DataOf(ops') == DataOf(ops) && FailuresOf(ops') == FailuresOf(ops)
  {
    AppendOp(s.chan.At(e).ops, op);
    FailuresSnoc(s.chan.At(e).ops, op);
  }

  lemma CopyPuts(s: State, e: Side, step: CopyStep, d: Side)
    requires CopyEnabled(s, e, step)
    ensures Puts(s.chan.At(d.Other()).ops, Copy(e, step), d, ApplyCopy(s, e, step).chan.At(d.Other()).ops)
  {
    if step.Write? {
      var op := Data(s.copier.At(e).pc.chunk[..step.accepted]);
      AppendOp(s.chan.At(e.Other()).ops, op);
      FailuresSnoc(s.chan.At(e.Other()).ops, op);
    }
  }

  lemma SendPuts(s: State, e: Side, ok: bool, failed: bool, d: Side)
    requires ForwardEnabled(s, e, Send(ok, failed))
    ensures Puts(s.chan.At(d.Other()).ops, Forward(e, Send(ok, failed)), d,
                 ApplyForward(s, e, Send(ok, failed)).chan.At(d.Other()).ops)
  {
    var op, o, t := Ask(s.forwarder.At(e).req, failed), e.Other(), ApplyForward(s, e, Send(ok, failed));
    AppendOp(s.chan.At(o).ops, op);
    FailuresSnoc(s.chan.At(o).ops, op);
    if d == e {
      assert t.chan.At(o).ops == s.chan.At(o).ops + [op];
    } else {
      assert t.chan.At(e).ops == s.chan.At(e).ops && d.Other() == e;
    }
  }

  lemma ForwardPuts(s: State, e: Side, step: ForwardStep, d: Side)
    requires ForwardEnabled(s, e, step)
    ensures Puts(s.chan.At(d.Other()).ops, Forward(e, step), d, ApplyForward(s, e, step).chan.At(d.Other()).ops)
  {
    match step
    case Send(ok, failed) => SendPuts(s, e, ok, failed, d);
    case Reply(undelivered) => PerformPuts(s, e, Answer(s.forwarder.At(e).ok, undelivered), d.Other());
    case _ =>
  }

  lemma ReturnPuts(s: State, failed: bool, x: Side)
    ensures var ops, ops' := s.chan.At(x).ops, Return(s, failed).chan.At(x).ops;
            DataOf(ops') == DataOf(ops) && FailuresOf(ops') == FailuresOf(ops)
  {
    PerformPuts(s, Left, DeferredClose, x);
    PerformPuts(Perform(s, Left, DeferredClose), Right, DeferredClose, x);
  }

  lemma ContinuePuts(s: State, x: Side)
    requires LoopEnabled(s, Continue)
    ensures var ops, ops' := s.chan.At(x).ops, ApplyLoop(s, Continue).chan.At(x).ops;
            DataOf(ops') == DataOf(ops) && FailuresOf(ops') == FailuresOf(ops)
  {
    match s.loop
    case HalfClose(e) => PerformPuts(s, e, CloseWrite, x);
    case TestLeft => PerformPuts(s, Right, Close, x);
    case TestRight => PerformPuts(s, Left, Close, x);
    case TestAll => ReturnPuts(s, false, x);
  }

  lemma LoopPuts(s: State, step: LoopStep, d: Side)
    requires LoopEnabled(s, step)
    ensures Puts(s.chan.At(d.Other()).ops, Loop(step), d, ApplyLoop(s, step).chan.At(d.Other()).ops)
  {
    if step.TakeError? {
      ReturnPuts(s.(errch := false), true, d.Other());
    } else if step.Continue? {
      ContinuePuts(s, d.Other());
    }
  }

  lemma StepPuts(s: State, a: Action, d: Side)
    requires Enabled(s, a)
    ensures Puts(s.chan.At(d.Other()).ops, a, d, Apply(s, a).chan.At(d.Other()).ops)
  {
    match a
    case Peer(e, event) =>
    case Copy(e, step) => CopyPuts(s, e, step, d);
    case Forward(e, step) => ForwardPuts(s, e, step, d);
    case Loop(step) => LoopPuts(s, step, d);
    case Stutter =>
  }

  /** A copier is broken, or about to be, exactly if one of its Reads or Writes has failed. */
  predicate Marked(k: Copying, broke: bool) {
    match k.pc
    case Reading => !k.broken && !broke
    case Writing(_, end) => !k.broken && (broke <==> end.Failed?)
    case _ => k.broken <==> broke
  }

  lemma StepMarks(s: State, a: Action, d: Side, broke: bool)
    requires Enabled(s, a) && Marked(s.copier.At(d), broke)
    ensures Marked(Apply(s, a).copier.At(d), broke || BreaksBy(a, d))
  {
    match a
    case Peer(e, event) =>
    case Copy(e, step) =>
    case Forward(e, step) => ForwardMarks(s, e, step, d);
    case Loop(step) => LoopIsQuiet(s, step, d);
    case Stutter =>
  }

  lemma ForwardMarks(s: State, e: Side, step: ForwardStep, d: Side)
    requires ForwardEnabled(s, e, step)
    ensures ApplyForward(s, e, step).copier.At(d) == s.copier.At(d)
  {
  }

  // ---- runs ------------------------------------------------------------------------------------------

  lemma {:induction false} RunTakes(s: State, acts: seq<Action>, d: Side)
    requires Runs(s, acts)
    ensures var c, c' := s.chan.At(d), Exec(s, acts).chan.At(d);
            && c'.arrived == c.arrived + Arrived(acts, d) && c'.requests == c.requests + Requested(acts, d)
            && c'.answers == c.answers + Results(acts, d)
    decreases |acts|
  {
    if acts != [] {
      var c, a, rest := s.chan.At(d), acts[0], acts[1..];
      StepTakes(s, a, d);
      RunTakes(Apply(s, a), rest, d);
      Regroup(c.arrived, DataBy(a, d), Arrived(rest, d));
      Regroup(c.requests, RequestBy(a, d), Requested(rest, d));
      Regroup(c.answers, ResultBy(a, d), Results(rest, d));
    }
  }

  lemma {:induction false} RunEnds(s: State, acts: seq<Action>, d: Side)
    requires Runs(s, acts)
    ensures var c, c' := s.chan.At(d), Exec(s, acts).chan.At(d);
            && (c'.eof <==> c.eof || exists a :: a in acts && EndsBy(a, d))
            && (c'.closed <==> c.closed || exists a :: a in acts && ClosesBy(a, d))
    decreases |acts|
  {
    if acts != [] {
      StepTakes(s, acts[0], d);
      RunEnds(Apply(s, acts[0]), acts[1..], d);
      assert forall a :: a in acts <==> a == acts[0] || a in acts[1..];
    }
  }

  lemma {:induction false} RunPuts(s: State, acts: seq<Action>, d: Side)
    requires Runs(s, acts)
    ensures var ops, ops' := s.chan.At(d.Other()).ops, Exec(s, acts).chan.At(d.Other()).ops;
            && |DataOf(ops')| == |DataOf(ops)| + Written(acts, d)
            && FailuresOf(ops') == FailuresOf(ops) + Failures(acts, d)
    decreases |acts|
  {
    if acts != [] {
      StepPuts(s, acts[0], d);
      RunPuts(Apply(s, acts[0]), acts[1..], d);
      Regroup(FailuresOf(s.chan.At(d.Other()).ops), FailureBy(acts[0], d), Failures(acts[1..], d));
    }
  }

  lemma {:induction false} RunMarks(s: State, acts: seq<Action>, d: Side, broke: bool)
    requires Runs(s, acts) && Marked(s.copier.At(d), broke)
    ensures Marked(Exec(s, acts).copier.At(d), broke || Breaks(acts, d))
    decreases |acts|
  {
    if acts != [] {
      StepMarks(s, acts[0], d, broke);
      RunMarks(Apply(s, acts[0]), acts[1..], d, broke || BreaksBy(acts[0], d));
      assert forall a :: a in acts <==> a == acts[0] || a in acts[1..];
    }
  }

  /** A copier that has ended is broken exactly if one of its Reads or Writes failed. */
  lemma BrokenIff(acts: seq<Action>, d: Side)
    requires Runs(Init(), acts) && Exec(Init(), acts).copier.At(d).pc.CopyGone?
    ensures Exec(Init(), acts).copier.At(d).broken <==> Breaks(acts, d)
  {
    RunMarks(Init(), acts, d, false);
  }

  /** After any run, what was written to a channel is the beginning of what the other side's peer sent, as many bytes
      as the Writes accepted; after a nil return it is all of it unless a Read or a Write failed. */
  lemma BytesDelivered(acts: seq<Action>, d: Side)
    requires Runs(Init(), acts)
    ensures var s := Exec(Init(), acts);
            var out := DataOf(s.chan.At(d.Other()).ops);
            && out <= Arrived(acts, d) && |out| == Written(acts, d)
            && (s.loop == Returned(false) && !Breaks(acts, d) ==> out == Arrived(acts, d))
  {
    var s := Exec(Init(), acts);
    RunTakes(Init(), acts, d);
    RunPuts(Init(), acts, d);
    BytesInOrder(s, d);
    if s.loop == Returned(false) {
      NilReturn(s);
      assert s.Gone(Copier(d));
      BrokenIff(acts, d);
    }
  }

  /** A copier ends without a failure only at the end of its input, with all of it written, whatever the event loop
      has done. */
  lemma CopierEndsAtEof(acts: seq<Action>, d: Side)
    requires Runs(Init(), acts) && Exec(Init(), acts).copier.At(d).pc.CopyGone? && !Breaks(acts, d)
    ensures DataOf(Exec(Init(), acts).chan.At(d.Other()).ops) == Arrived(acts, d)
    ensures exists a :: a in acts && EndsBy(a, d)
  {
    var s := Exec(Init(), acts);
    ReachableInv(s);
    BrokenIff(acts, d);
    RunTakes(Init(), acts, d);
    RunEnds(Init(), acts, d);
    AllCopied(s.chan.At(d), s.copier.At(d), DataOf(s.chan.At(d.Other()).ops));
  }

  /** The requests, results and failures that the other theorems speak of are those of the run. */
  lemma RequestsOfRun(acts: seq<Action>, d: Side)
    requires Runs(Init(), acts)
    ensures var s := Exec(Init(), acts);
            && s.chan.At(d).requests == Requested(acts, d) && s.chan.At(d).answers == Results(acts, d)
            && FailuresOf(s.chan.At(d.Other()).ops) == Failures(acts, d)
  {
    RunTakes(Init(), acts, d);
    RunPuts(Init(), acts, d);
  }
}
