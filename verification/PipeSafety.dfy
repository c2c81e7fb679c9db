/** Safety of the channel proxy: what holds in every interleaving. */
module PipeSafety {
  import opened Common
  import opened Pipe

  // ---- what the history of one channel says ---------------------------------------------------

  function DataOf(ops: seq<Op>): seq<byte> {
    if ops == [] then [] else
    var op := ops[|ops| - 1];
    DataOf(ops[..|ops| - 1]) + if op.Data? then op.bytes else []
  }

  function AsksOf(ops: seq<Op>): seq<Request> {
    if ops == [] then [] else
    var op := ops[|ops| - 1];
    AsksOf(ops[..|ops| - 1]) + if op.Ask? then [op.req] else []
  }

  function AnswersOf(ops: seq<Op>): seq<bool> {
    if ops == [] then [] else
    var op := ops[|ops| - 1];
    AnswersOf(ops[..|ops| - 1]) + if op.Answer? then [op.ok] else []
  }

  /** The answers owed to `reqs` when `results` are the far side's: one for each request that wants a reply. */
  function Owed(reqs: seq<Request>, results: seq<bool>): seq<bool>
    requires |reqs| == |results|
  {
    if reqs == [] then [] else
    var k := |reqs| - 1;
    Owed(reqs[..k], results[..k]) + if reqs[k].wantReply then [results[k]] else []
  }

  /** The log lines of the exec requests among `reqs`. */
  function ExecLines(reqs: seq<Request>): seq<seq<byte>> {
    if reqs == [] then [] else
    var k := |reqs| - 1;
    ExecLines(reqs[..k]) + if reqs[k].kind == EXEC then [reqs[k].payload + [NEWLINE]] else []
  }

  /** Section 5.3 of RFC 4254 for the messages of one side: no data after the write side is closed,
      neither data nor a request after Close, and at most one half-close, which no Close precedes. */
  predicate WellOrdered(ops: seq<Op>) {
    forall i, j | 0 <= i < j < |ops| :: MayFollow(ops[i], ops[j])
  }

  predicate MayFollow(first: Op, later: Op) {
    && (first.CloseWrite? ==> !later.Data? && !later.CloseWrite?)
    && (first.Close? || first.DeferredClose? ==> !later.Data? && !later.Ask? && !later.CloseWrite?)
  }

  /** Every Close of the event loop comes after a CloseWrite. */
  predicate HalfClosedFirst(ops: seq<Op>) {
    forall j | 0 <= j < |ops| && ops[j].Close? :: CloseWrite in ops[..j]
  }

  lemma AppendOp(ops: seq<Op>, op: Op)
    ensures DataOf(ops + [op]) == DataOf(ops) + if op.Data? then op.bytes else []
    ensures AsksOf(ops + [op]) == AsksOf(ops) + if op.Ask? then [op.req] else []
    ensures AnswersOf(ops + [op]) == AnswersOf(ops) + if op.Answer? then [op.ok] else []
  {
    assert (ops + [op])[..|ops|] == ops;
  }

  /** A well-ordered history: `half` says whether the write side is closed, `over` whether the event loop
      may have closed the channel, `left` whether `pipe` has returned. */
  ghost predicate History(ops: seq<Op>, half: bool, over: bool, left: bool) {
    && (CloseWrite in ops <==> half)
    && (Close in ops ==> half && over)
    && (DeferredClose in ops ==> left)
    && WellOrdered(ops)
    && HalfClosedFirst(ops)
  }

  predicate Allowed(op: Op, half: bool, over: bool, left: bool) {
    match op
    case Data(_) => !half && !left
    case Ask(_, _) => !over && !left
    case Answer(_, _) => true
    case CloseWrite => !half && !left
    case Close => half && over
    case DeferredClose => left
  }

  lemma Extend(ops: seq<Op>, op: Op, half: bool, over: bool, left: bool)
    requires History(ops, half, over, left) && Allowed(op, half, over, left)
    ensures History(ops + [op], half || op.CloseWrite?, over, left)
  {
    var ext := ops + [op];
    forall i, j | 0 <= i < j < |ext|
      ensures MayFollow(ext[i], ext[j])
    {
      if j == |ops| {
        assert ops[i] in ops;
      }
    }
    forall j | 0 <= j < |ext| && ext[j].Close?
      ensures CloseWrite in ext[..j]
    {
      assert ext[..j] == ops[..j];
    }
    assert forall o :: o in ext <==> o in ops || o == op;
  }

  /** The histories `before` and `after` carry the same data, requests and answers. */
  ghost predicate SameTraffic(before: seq<Op>, after: seq<Op>) {
    && DataOf(after) == DataOf(before)
    && AsksOf(after) == AsksOf(before)
    && AnswersOf(after) == AnswersOf(before)
  }

  /** `t` differs from `s` only in the flags and the closings done by the event loop. */
  ghost predicate Quiet(s: State, t: State, x: Side) {
    && t.chan.At(x).(ops := s.chan.At(x).ops) == s.chan.At(x)
    && SameTraffic(s.chan.At(x).ops, t.chan.At(x).ops)
    && t.copier == s.copier && t.forwarder == s.forwarder && t.execLog == s.execLog
  }

  lemma PerformQuiet(s: State, d: Side, op: Op, x: Side)
    requires op.CloseWrite? || op.Close? || op.DeferredClose?
    ensures Quiet(s, Perform(s, d, op), x)
  {
    AppendOp(s.chan.At(d).ops, op);
  }

  lemma ReturnQuiet(s: State, failed: bool, x: Side)
    ensures Quiet(s, Return(s, failed), x)
  {
    PerformQuiet(s, Left, DeferredClose, x);
    PerformQuiet(Perform(s, Left, DeferredClose), Right, DeferredClose, x);
  }

  lemma CloseIfOverQuiet(s: State, d: Side, x: Side)
    ensures Quiet(s, CloseIfOver(s, d), x)
  {
    PerformQuiet(s, d, Close, x);
  }

  /** The event loop sends no data, request or answer, and moves no worker. */
  lemma LoopIsQuiet(s: State, step: LoopStep, x: Side)
    requires LoopEnabled(s, step)
    ensures Quiet(s, ApplyLoop(s, step), x)
  {
    if step.TakeError? {
      ReturnQuiet(s.(errch := false), true, x);
    } else if step.Continue? {
      match s.loop
      case HalfClose(d) => PerformQuiet(s, d, CloseWrite, x);
      case TestLeft => CloseIfOverQuiet(s, Right, x);
      case TestRight => CloseIfOverQuiet(s, Left, x);
      case TestAll => ReturnQuiet(s, false, x);
    }
  }

  /** The half-close and the tests change no flag, and move no worker and no token. */
  ghost predicate SameParts(s: State, t: State) {
    && t.copier == s.copier && t.forwarder == s.forwarder && t.quit == s.quit && t.errch == s.errch
    && t.eofSeen == s.eofSeen && t.reqsDone == s.reqsDone
  }

  lemma ContinueKeepsParts(s: State)
    requires LoopEnabled(s, Continue)
    ensures SameParts(s, ApplyLoop(s, Continue))
  {
    match s.loop {
      case HalfClose(d) =>
      case TestLeft =>
      case TestRight =>
      case TestAll =>
    }
  }

  /** The event loop's own variables are the same and no history has lost a message. */
  ghost predicate Besides(s: State, t: State) {
    && t.loop == s.loop && t.eofSeen == s.eofSeen && t.reqsDone == s.reqsDone && (s.errch ==> t.errch)
    && (forall d: Side :: s.chan.At(d).ops <= t.chan.At(d).ops && (s.chan.At(d).closed ==> t.chan.At(d).closed))
  }

  lemma WorkersBeside(s: State, a: Action)
    requires Enabled(s, a) && !a.Loop?
    ensures Besides(s, Apply(s, a))
  {
    match a
    case Copy(d, step) => CopyBeside(s, d, step);
    case Forward(d, step) => ForwardBeside(s, d, step);
    case _ =>
  }

  lemma CopyBeside(s: State, d: Side, step: CopyStep)
    requires CopyEnabled(s, d, step)
    ensures Besides(s, ApplyCopy(s, d, step))
  {
  }

  lemma ForwardBeside(s: State, d: Side, step: ForwardStep)
    requires ForwardEnabled(s, d, step)
    ensures Besides(s, ApplyForward(s, d, step))
  {
  }

  // ---- invariants ------------------------------------------------------------------------------

  /** A worker token is in at most one of `quit` and its flag, and only once the worker has ended. */
  ghost predicate TokenInv(s: State) {
    forall w: Worker ::
      && (s.quit == Some(w) ==> s.Gone(w) && !s.Recorded(w))
      && (s.Recorded(w) ==> s.Gone(w))
      && (s.Gone(w) ==> s.Recorded(w) || s.quit == Some(w))
  }

  lemma CopyKeepsTokens(s: State, d: Side, step: CopyStep)
    requires TokenInv(s) && CopyEnabled(s, d, step)
    ensures TokenInv(ApplyCopy(s, d, step))
  {
  }

  lemma ForwardKeepsTokens(s: State, d: Side, step: ForwardStep)
    requires TokenInv(s) && ForwardEnabled(s, d, step)
    ensures TokenInv(ApplyForward(s, d, step))
  {
  }

  lemma RecordKeepsTokens(s: State, w: Worker)
    requires TokenInv(s) && s.quit == Some(w)
    ensures TokenInv(Record(s.(quit := None), w))
  {
  }

  lemma LoopKeepsTokens(s: State, step: LoopStep)
    requires TokenInv(s) && LoopEnabled(s, step)
    ensures TokenInv(ApplyLoop(s, step))
  {
    match step
    case TakeError =>
    case TakeToken => RecordKeepsTokens(s, s.quit.value);
    case Continue => ContinueKeepsParts(s);
  }

  lemma StepKeepsTokens(s: State, a: Action)
    requires TokenInv(s) && Enabled(s, a)
    ensures TokenInv(Apply(s, a))
  {
    match a
    case Peer(d, e) =>
    case Copy(d, step) => CopyKeepsTokens(s, d, step);
    case Forward(d, step) => ForwardKeepsTokens(s, d, step);
    case Loop(step) => LoopKeepsTokens(s, step);
    case Stutter =>
  }

  /** The history of the channel of side `d`, against the flags of the workers that write to it. */
  ghost predicate OrderInv(s: State, d: Side) {
    && History(s.chan.At(d).ops,
               s.eofSeen.At(d.Other()) && s.loop != HalfClose(d),
               s.eofSeen.At(d.Other()) && s.reqsDone.At(d.Other()),
               s.loop.Returned?)
    && (s.loop == HalfClose(d) ==> s.eofSeen.At(d.Other()))
    && (s.loop == Returned(false) ==> s.AllRecorded())
  }

  ghost predicate Ordered(s: State) {
    OrderInv(s, Left) && OrderInv(s, Right)
  }

  lemma CopyKeepsOrder(s: State, d: Side, step: CopyStep)
    requires TokenInv(s) && Ordered(s) && CopyEnabled(s, d, step) && s.loop != Returned(true)
    ensures Ordered(ApplyCopy(s, d, step))
  {
    assert !s.Gone(Copier(d)) && !s.Recorded(Copier(d));
    if step.Write? {
      Extend(s.chan.At(d.Other()).ops, Data(s.copier.At(d).pc.chunk[..step.accepted]), false, false, false);
    }
  }

  lemma SendKeepsOrder(s: State, d: Side, ok: bool, failed: bool)
    requires TokenInv(s) && Ordered(s) && ForwardEnabled(s, d, Send(ok, failed)) && s.loop != Returned(true)
    ensures Ordered(ApplyForward(s, d, Send(ok, failed)))
  {
    assert !s.Gone(Forwarder(d)) && !s.Recorded(Forwarder(d));
    var o, t, op := d.Other(), ApplyForward(s, d, Send(ok, failed)), Ask(s.forwarder.At(d).req, failed);
    Extend(s.chan.At(o).ops, op, s.eofSeen.At(d) && s.loop != HalfClose(o), false, false);
    assert t.chan.At(o).ops == s.chan.At(o).ops + [op] && t.chan.At(d).ops == s.chan.At(d).ops;
  }

  lemma ReplyKeepsOrder(s: State, d: Side, undelivered: bool)
    requires TokenInv(s) && Ordered(s) && ForwardEnabled(s, d, Reply(undelivered)) && s.loop != Returned(true)
    ensures Ordered(ApplyForward(s, d, Reply(undelivered)))
  {
    assert !s.Gone(Forwarder(d)) && !s.Recorded(Forwarder(d));
    var o := d.Other();
    Extend(s.chan.At(d).ops, Answer(s.forwarder.At(d).ok, undelivered), s.eofSeen.At(o) && s.loop != HalfClose(d),
           s.eofSeen.At(o) && s.reqsDone.At(o), false);
  }

  lemma ForwardKeepsOrder(s: State, d: Side, step: ForwardStep)
    requires TokenInv(s) && Ordered(s) && ForwardEnabled(s, d, step) && s.loop != Returned(true)
    ensures Ordered(ApplyForward(s, d, step))
  {
    match step
    case Send(ok, failed) => SendKeepsOrder(s, d, ok, failed);
    case Reply(undelivered) => ReplyKeepsOrder(s, d, undelivered);
    case _ =>
  }

  lemma RecordCopierKeepsOrder(s: State, d: Side)
    requires Ordered(s) && s.loop.Select? && !s.eofSeen.At(d)
    ensures Ordered(Record(s, Copier(d)))
  {
  }

  lemma RecordForwarderKeepsOrder(s: State, d: Side)
    requires Ordered(s) && s.loop.Select? && !s.reqsDone.At(d)
    ensures Ordered(Record(s, Forwarder(d)))
  {
  }

  lemma TakeTokenKeepsOrder(s: State)
    requires TokenInv(s) && Ordered(s) && LoopEnabled(s, TakeToken)
    ensures Ordered(ApplyLoop(s, TakeToken))
  {
    assert !s.Recorded(s.quit.value);
    match s.quit.value
    case Copier(d) => RecordCopierKeepsOrder(s.(quit := None), d);
    case Forwarder(d) => RecordForwarderKeepsOrder(s.(quit := None), d);
  }

  lemma ContinueKeepsOrder(s: State)
    requires Ordered(s) && LoopEnabled(s, Continue)
    ensures Ordered(ApplyLoop(s, Continue))
  {
    match s.loop
    case HalfClose(d) =>
      Extend(s.chan.At(d).ops, CloseWrite, false, s.eofSeen.At(d.Other()) && s.reqsDone.At(d.Other()), false);
    case TestLeft => CloseIfOverKeepsOrder(s, Right);
    case TestRight => CloseIfOverKeepsOrder(s, Left);
    case TestAll => if s.AllRecorded() { ReturnKeepsOrder(s); }
  }

  lemma CloseIfOverKeepsOrder(s: State, d: Side)
    requires Ordered(s) && !s.loop.HalfClose? && !s.loop.Returned?
    ensures Ordered(CloseIfOver(s, d))
  {
    if CloseIfOver(s, d) != s {
      Extend(s.chan.At(d).ops, Close, true, true, false);
    }
  }

  lemma ReturnKeepsOrder(s: State)
    requires Ordered(s) && !s.loop.HalfClose? && s.AllRecorded()
    ensures Ordered(Return(s, false))
  {
    Extend(s.chan.left.ops, DeferredClose, true, true, true);
    Extend(s.chan.right.ops, DeferredClose, true, true, true);
  }

  lemma StepKeepsOrder(s: State, a: Action)
    requires TokenInv(s) && Ordered(s) && Enabled(s, a)
    requires s.loop != Returned(true) && a != Loop(TakeError)
    ensures Ordered(Apply(s, a))
  {
    match a
    case Peer(d, e) =>
    case Copy(d, step) => CopyKeepsOrder(s, d, step);
    case Forward(d, step) => ForwardKeepsOrder(s, d, step);
    case Loop(step) => if step.TakeToken? { TakeTokenKeepsOrder(s); } else { ContinueKeepsOrder(s); }
    case Stutter =>
  }

  /** The copy from a channel, against the bytes written to the other one so far. */
  ghost predicate Delivery(c: Channel, k: Copying, out: seq<byte>) {
    && c.taken <= |c.arrived|
    && (c.closed ==> c.eof)
    && var got := c.arrived[..c.taken];
       match k.pc
       case Reading => !k.broken && out == got
       case Writing(chunk, end) =>
         && !k.broken && chunk != [] && out + chunk == got
         && (end == Ended ==> c.eof && c.taken == |c.arrived|)
       case _ =>
         if k.broken then out <= got else out == got && c.eof && c.taken == |c.arrived|
  }

  ghost predicate DeliveryInv(s: State, d: Side) {
    Delivery(s.chan.At(d), s.copier.At(d), DataOf(s.chan.At(d.Other()).ops))
  }

  lemma PeerKeepsDelivery(c: Channel, k: Copying, out: seq<byte>, e: PeerEvent)
    requires Delivery(c, k, out) && PeerEnabled(c, e)
    ensures Delivery(ApplyPeer(c, e), k, out)
  {
    if e.PeerData? {
      assert (c.arrived + e.bytes)[..c.taken] == c.arrived[..c.taken];
    }
  }

  lemma ReadKeepsDelivery(s: State, d: Side, n: nat, end: ReadEnd)
    requires DeliveryInv(s, d) && CopyEnabled(s, d, Read(n, end))
    ensures DeliveryInv(ApplyCopy(s, d, Read(n, end)), d)
  {
    var c := s.chan.At(d);
    assert c.arrived[..c.taken] + c.arrived[c.taken..c.taken + n] == c.arrived[..c.taken + n];
  }

  /** A Write of `accepted` bytes of the chunk, as seen by the predicate on values. */
  lemma WriteDelivery(c: Channel, k: Copying, out: seq<byte>, accepted: nat, broke: bool)
    requires Delivery(c, k, out) && k.pc.Writing? && accepted <= |k.pc.chunk|
    requires accepted < |k.pc.chunk| ==> broke
    ensures Delivery(c, AfterWrite(k.pc.end, broke), out + k.pc.chunk[..accepted])
  {
    assert out + k.pc.chunk[..accepted] <= out + k.pc.chunk;
  }

  lemma WriteKeepsDelivery(s: State, d: Side, accepted: nat, broke: bool)
    requires DeliveryInv(s, d) && CopyEnabled(s, d, Write(accepted, broke))
    ensures DeliveryInv(ApplyCopy(s, d, Write(accepted, broke)), d)
  {
    var out := s.chan.At(d.Other()).ops;
    AppendOp(out, Data(s.copier.At(d).pc.chunk[..accepted]));
    WriteDelivery(s.chan.At(d), s.copier.At(d), DataOf(out), accepted, broke);
  }

  lemma CopyKeepsDelivery(s: State, d: Side, step: CopyStep)
    requires DeliveryInv(s, d) && CopyEnabled(s, d, step)
    ensures DeliveryInv(ApplyCopy(s, d, step), d)
  {
    match step
    case Read(n, end) => ReadKeepsDelivery(s, d, n, end);
    case Write(accepted, broke) => WriteKeepsDelivery(s, d, accepted, broke);
    case AnnounceCopy =>
  }

  lemma OtherCopyKeepsDelivery(s: State, d: Side, step: CopyStep)
    requires DeliveryInv(s, d.Other()) && CopyEnabled(s, d, step)
    ensures DeliveryInv(ApplyCopy(s, d, step), d.Other())
  {
  }

  lemma StepKeepsDelivery(s: State, a: Action, x: Side)
    requires DeliveryInv(s, x) && Enabled(s, a)
    ensures DeliveryInv(Apply(s, a), x)
  {
    match a
    case Peer(d, e) =>
      if d == x { PeerKeepsDelivery(s.chan.At(x), s.copier.At(x), DataOf(s.chan.At(x.Other()).ops), e); }
    case Copy(d, step) =>
      if d == x { CopyKeepsDelivery(s, d, step); } else { OtherCopyKeepsDelivery(s, d, step); }
    case Forward(d, step) => ForwardKeepsDelivery(s, d, step, x);
    case Loop(step) => LoopKeepsDelivery(s, step, x);
    case Stutter =>
  }

  lemma ForwardKeepsDelivery(s: State, d: Side, step: ForwardStep, x: Side)
    requires DeliveryInv(s, x) && ForwardEnabled(s, d, step)
    ensures DeliveryInv(ApplyForward(s, d, step), x)
  {
    var o := x.Other();
    assert DataOf(ApplyForward(s, d, step).chan.At(o).ops) == DataOf(s.chan.At(o).ops) by {
      if step.Send? {
        AppendOp(s.chan.At(d.Other()).ops, Ask(s.forwarder.At(d).req, step.failed));
      } else if step.Reply? {
        AppendOp(s.chan.At(d).ops, Answer(s.forwarder.At(d).ok, step.undelivered));
      }
    }
  }

  lemma LoopKeepsDelivery(s: State, step: LoopStep, x: Side)
    requires DeliveryInv(s, x) && LoopEnabled(s, step)
    ensures DeliveryInv(ApplyLoop(s, step), x)
  {
    LoopIsQuiet(s, step, x);
    LoopIsQuiet(s, step, x.Other());
  }

  /** A request being handled is the last one sent, up to what the log write appended to its payload. */
  predicate Handling(pc: ForwardPc, req: Request, ok: bool) {
    && (pc.Logging? || pc.Raising? || pc.Replying?)
    && pc.ok == ok
    && pc.req.wantReply == req.wantReply
    && (pc.Logging? ==> pc.req == req && req.kind == EXEC)
  }

  /** The forwarding of a channel's requests, against the requests sent on the other channel and the
      answers sent back on this one. */
  ghost predicate Forwarding(c: Channel, pc: ForwardPc, asks: seq<Request>, replies: seq<bool>) {
    && |c.answers| <= c.pulled <= |c.requests|
    && asks == c.requests[..|c.answers|]
    && (if pc.Sending? then c.pulled == |c.answers| + 1 && pc.req == c.requests[|c.answers|]
        else c.pulled == |c.answers|)
    && (if pc.Logging? || pc.Raising? || pc.Replying? then
          var k := |c.answers| - 1;
          k >= 0 && Handling(pc, c.requests[k], c.answers[k]) && replies == Owed(c.requests[..k], c.answers[..k])
        else
          replies == Owed(c.requests[..|c.answers|], c.answers))
    && (pc.ForwardAnnouncing? || pc.ForwardGone? ==> c.closed && c.pulled == |c.requests|)
  }

  ghost predicate ForwardInv(s: State, d: Side) {
    Forwarding(s.chan.At(d), s.forwarder.At(d), AsksOf(s.chan.At(d.Other()).ops), AnswersOf(s.chan.At(d).ops))
  }

  lemma OwedNext(reqs: seq<Request>, results: seq<bool>, k: nat)
    requires |results| <= |reqs| && k < |results|
    ensures Owed(reqs[..k + 1], results[..k + 1])
            == Owed(reqs[..k], results[..k]) + if reqs[k].wantReply then [results[k]] else []
  {
    assert reqs[..k + 1][..k] == reqs[..k];
    assert results[..k + 1][..k] == results[..k];
  }

  lemma PeerKeepsForwarding(c: Channel, pc: ForwardPc, asks: seq<Request>, replies: seq<bool>, e: PeerEvent)
    requires Forwarding(c, pc, asks, replies) && PeerEnabled(c, e)
    ensures Forwarding(ApplyPeer(c, e), pc, asks, replies)
  {
    if e.PeerRequest? {
      var k := |c.answers|;
      assert (c.requests + [e.req])[..k] == c.requests[..k];
      assert k > 0 ==> (c.requests + [e.req])[..k - 1] == c.requests[..k - 1];
    }
  }

  /** Sending the pulled request, as seen by the predicate on values. */
  lemma SendForwarding(c: Channel, pc: ForwardPc, asks: seq<Request>, replies: seq<bool>, ok: bool, next: ForwardPc)
    requires Forwarding(c, pc, asks, replies) && pc.Sending? && Handling(next, pc.req, ok)
    ensures Forwarding(c.(answers := c.answers + [ok]), next, asks + [pc.req], replies)
  {
    var k := |c.answers|;
    assert c.requests[..k + 1] == c.requests[..k] + [c.requests[k]];
    assert (c.answers + [ok])[..k] == c.answers;
  }

  /** What SendRequest and the noting of its result change. */
  lemma SendEffect(s: State, d: Side, ok: bool, failed: bool)
    requires ForwardEnabled(s, d, Send(ok, failed))
    ensures var t, req := ApplyForward(s, d, Send(ok, failed)), s.forwarder.At(d).req;
            && t.chan.At(d) == s.chan.At(d).(answers := s.chan.At(d).answers + [ok])
            && AsksOf(t.chan.At(d.Other()).ops) == AsksOf(s.chan.At(d.Other()).ops) + [req]
            && Handling(t.forwarder.At(d), req, ok)
  {
    var out, req := s.chan.At(d.Other()).ops, s.forwarder.At(d).req;
    assert ApplyForward(s, d, Send(ok, failed)).chan.At(d.Other()).ops == out + [Ask(req, failed)];
    AppendOp(out, Ask(req, failed));
  }

  lemma SendKeepsForwarding(s: State, d: Side, ok: bool, failed: bool)
    requires ForwardInv(s, d) && ForwardEnabled(s, d, Send(ok, failed))
    ensures ForwardInv(ApplyForward(s, d, Send(ok, failed)), d)
  {
    SendEffect(s, d, ok, failed);
    SendForwarding(s.chan.At(d), s.forwarder.At(d), AsksOf(s.chan.At(d.Other()).ops), AnswersOf(s.chan.At(d).ops),
                   ok, ApplyForward(s, d, Send(ok, failed)).forwarder.At(d));
  }

  lemma ReplyKeepsForwarding(s: State, d: Side, undelivered: bool)
    requires ForwardInv(s, d) && ForwardEnabled(s, d, Reply(undelivered))
    ensures ForwardInv(ApplyForward(s, d, Reply(undelivered)), d)
  {
    var c := s.chan.At(d);
    AppendOp(c.ops, Answer(s.forwarder.At(d).ok, undelivered));
    OwedNext(c.requests, c.answers, |c.answers| - 1);
    assert c.answers[..|c.answers|] == c.answers;
  }

  lemma ForwardKeepsForwarding(s: State, d: Side, step: ForwardStep)
    requires ForwardInv(s, d) && ForwardEnabled(s, d, step)
    ensures ForwardInv(ApplyForward(s, d, step), d)
  {
    match step
    case Send(ok, failed) => SendKeepsForwarding(s, d, ok, failed);
    case Reply(undelivered) => ReplyKeepsForwarding(s, d, undelivered);
    case _ =>
  }

  /** The other forwarder answers on the channel this one sends on. */
  lemma OtherTraffic(s: State, d: Side, step: ForwardStep)
    requires ForwardEnabled(s, d, step)
    ensures var o, t := d.Other(), ApplyForward(s, d, step);
            && AsksOf(t.chan.At(d).ops) == AsksOf(s.chan.At(d).ops)
            && AnswersOf(t.chan.At(o).ops) == AnswersOf(s.chan.At(o).ops)
            && t.chan.At(o).(ops := s.chan.At(o).ops) == s.chan.At(o) && t.forwarder.At(o) == s.forwarder.At(o)
  {
    match step {
      case Send(_, failed) => AppendOp(s.chan.At(d.Other()).ops, Ask(s.forwarder.At(d).req, failed));
      case Reply(undelivered) => AppendOp(s.chan.At(d).ops, Answer(s.forwarder.At(d).ok, undelivered));
      case _ =>
    }
  }

  lemma OtherKeepsForwarding(s: State, d: Side, step: ForwardStep)
    requires ForwardInv(s, d.Other()) && ForwardEnabled(s, d, step)
    ensures ForwardInv(ApplyForward(s, d, step), d.Other())
  {
    OtherTraffic(s, d, step);
  }

  lemma CopyTraffic(s: State, d: Side, step: CopyStep, x: Side)
    requires CopyEnabled(s, d, step)
    ensures var t := ApplyCopy(s, d, step);
            && AsksOf(t.chan.At(x).ops) == AsksOf(s.chan.At(x).ops)
            && AnswersOf(t.chan.At(x).ops) == AnswersOf(s.chan.At(x).ops)
            && t.chan.At(x).(ops := s.chan.At(x).ops, taken := s.chan.At(x).taken) == s.chan.At(x)
            && t.forwarder == s.forwarder
  {
    if step.Write? {
      AppendOp(s.chan.At(d.Other()).ops, Data(s.copier.At(d).pc.chunk[..step.accepted]));
    }
  }

  lemma CopyKeepsForwarding(s: State, d: Side, step: CopyStep, x: Side)
    requires ForwardInv(s, x) && CopyEnabled(s, d, step)
    ensures ForwardInv(ApplyCopy(s, d, step), x)
  {
    CopyTraffic(s, d, step, x);
    CopyTraffic(s, d, step, x.Other());
  }

  lemma LoopKeepsForwarding(s: State, step: LoopStep, x: Side)
    requires ForwardInv(s, x) && LoopEnabled(s, step)
    ensures ForwardInv(ApplyLoop(s, step), x)
  {
    LoopIsQuiet(s, step, x);
    LoopIsQuiet(s, step, x.Other());
  }

  lemma PeersKeepForwarding(s: State, d: Side, e: PeerEvent, x: Side)
    requires ForwardInv(s, x) && Enabled(s, Peer(d, e))
    ensures ForwardInv(Apply(s, Peer(d, e)), x)
  {
    if d == x {
      PeerKeepsForwarding(s.chan.At(x), s.forwarder.At(x), AsksOf(s.chan.At(x.Other()).ops),
                          AnswersOf(s.chan.At(x).ops), e);
    }
  }

  lemma BothKeepForwarding(s: State, d: Side, step: ForwardStep, x: Side)
    requires ForwardInv(s, x) && ForwardEnabled(s, d, step)
    ensures ForwardInv(ApplyForward(s, d, step), x)
  {
    if d == x { ForwardKeepsForwarding(s, d, step); } else { OtherKeepsForwarding(s, d, step); }
  }

  lemma StepKeepsForwarding(s: State, a: Action, x: Side)
    requires ForwardInv(s, x) && Enabled(s, a)
    ensures ForwardInv(Apply(s, a), x)
  {
    match a
    case Peer(d, e) => PeersKeepForwarding(s, d, e, x);
    case Copy(d, step) => CopyKeepsForwarding(s, d, step, x);
    case Forward(d, step) => BothKeepForwarding(s, d, step, x);
    case Loop(step) => LoopKeepsForwarding(s, step, x);
    case Stutter =>
  }

  /** The lines logged for exec requests: one for each that the client's forwarder has sent, in order. */
  predicate Logged(c: Channel, pc: ForwardPc, lines: seq<seq<byte>>) {
    var k := |c.answers| - if pc.Logging? then 1 else 0;
    0 <= k <= |c.requests| && lines == ExecLines(c.requests[..k])
  }

  ghost predicate LogInv(s: State) {
    Logged(s.chan.left, s.forwarder.left, s.execLog) && !s.forwarder.right.Logging?
  }

  lemma ExecLinesNext(reqs: seq<Request>, k: nat)
    requires k < |reqs|
    ensures var lines := ExecLines(reqs[..k]);
            ExecLines(reqs[..k + 1]) == if reqs[k].kind == EXEC then lines + [reqs[k].payload + [NEWLINE]] else lines
  {
    assert reqs[..k + 1][..k] == reqs[..k];
  }

  lemma PeerKeepsLog(s: State, d: Side, e: PeerEvent)
    requires LogInv(s) && Enabled(s, Peer(d, e))
    ensures LogInv(Apply(s, Peer(d, e)))
  {
    if d == Left && e.PeerRequest? {
      var c, k := s.chan.left, |s.chan.left.answers| - if s.forwarder.left.Logging? then 1 else 0;
      assert (c.requests + [e.req])[..k] == c.requests[..k];
    }
  }

  lemma SendKeepsLog(s: State, ok: bool, failed: bool)
    requires ForwardInv(s, Left) && LogInv(s) && ForwardEnabled(s, Left, Send(ok, failed))
    ensures LogInv(ApplyForward(s, Left, Send(ok, failed)))
  {
    var t, c, k := ApplyForward(s, Left, Send(ok, failed)), s.chan.left, |s.chan.left.answers|;
    assert t.chan.left.requests == c.requests && |t.chan.left.answers| == k + 1 && t.execLog == s.execLog;
    assert s.forwarder.left.req == c.requests[k];
    if c.requests[k].kind == EXEC {
      assert t.forwarder.left.Logging?;
    } else {
      ExecLinesNext(c.requests, k);
    }
  }

  lemma LogExecKeepsLog(s: State)
    requires ForwardInv(s, Left) && LogInv(s) && ForwardEnabled(s, Left, LogExec)
    ensures LogInv(ApplyForward(s, Left, LogExec))
  {
    ExecLinesNext(s.chan.left.requests, |s.chan.left.answers| - 1);
  }

  lemma ForwardKeepsLog(s: State, d: Side, step: ForwardStep)
    requires ForwardInv(s, Left) && LogInv(s) && ForwardEnabled(s, d, step)
    ensures LogInv(ApplyForward(s, d, step))
  {
    if d.Left? && step.Send? {
      SendKeepsLog(s, step.ok, step.failed);
    } else if d.Left? && step.LogExec? {
      LogExecKeepsLog(s);
    }
  }

  lemma CopyKeepsLog(s: State, d: Side, step: CopyStep)
    requires LogInv(s) && CopyEnabled(s, d, step)
    ensures LogInv(ApplyCopy(s, d, step))
  {
  }

  lemma LoopKeepsLog(s: State, step: LoopStep)
    requires LogInv(s) && LoopEnabled(s, step)
    ensures LogInv(ApplyLoop(s, step))
  {
    LoopIsQuiet(s, step, Left);
  }

  lemma StepKeepsLog(s: State, a: Action)
    requires ForwardInv(s, Left) && LogInv(s) && Enabled(s, a)
    ensures LogInv(Apply(s, a))
  {
    match a
    case Peer(d, e) => PeerKeepsLog(s, d, e);
    case Copy(d, step) => CopyKeepsLog(s, d, step);
    case Forward(d, step) => ForwardKeepsLog(s, d, step);
    case Loop(step) => LoopKeepsLog(s, step);
    case Stutter =>
  }

  /** What every reachable state satisfies. */
  ghost predicate Inv(s: State) {
    && TokenInv(s)
    && (s.loop != Returned(true) ==> Ordered(s))
    && DeliveryInv(s, Left) && DeliveryInv(s, Right)
    && ForwardInv(s, Left) && ForwardInv(s, Right)
    && LogInv(s)
  }

  lemma InitInv()
    ensures Inv(Init())
  {
  }

  lemma StepKeepsInv(s: State, a: Action)
    requires Inv(s) && Enabled(s, a)
    ensures Inv(Apply(s, a))
  {
    StepKeepsTokens(s, a);
    if Apply(s, a).loop != Returned(true) {
      NotReturnedBefore(s, a);
      StepKeepsOrder(s, a);
    }
    StepKeepsDelivery(s, a, Left);
    StepKeepsDelivery(s, a, Right);
    StepKeepsForwarding(s, a, Left);
    StepKeepsForwarding(s, a, Right);
    StepKeepsLog(s, a);
  }

  /** An error return is final. */
  lemma NotReturnedBefore(s: State, a: Action)
    requires Enabled(s, a) && Apply(s, a).loop != Returned(true)
    ensures s.loop != Returned(true) && a != Loop(TakeError)
  {
  }

  lemma {:induction false} RunKeepsInv(s: State, acts: seq<Action>)
    requires Inv(s) && Runs(s, acts)
    ensures Inv(Exec(s, acts))
    decreases |acts|
  {
    if acts != [] {
      StepKeepsInv(s, acts[0]);
      RunKeepsInv(Apply(s, acts[0]), acts[1..]);
    }
  }

  ghost predicate Reachable(s: State) {
    exists acts :: Runs(Init(), acts) && Exec(Init(), acts) == s
  }

  lemma ReachableInv(s: State)
    requires Reachable(s)
    ensures Inv(s)
  {
    var acts :| Runs(Init(), acts) && Exec(Init(), acts) == s;
    InitInv();
    RunKeepsInv(Init(), acts);
  }
}
