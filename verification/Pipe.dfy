/** The channel proxy of the bastion as a labelled transition system.

    Four goroutines (a byte copier and a request forwarder for each side) and one event loop
    run concurrently.  They share two channels of capacity one, `errch` and `quit`.  Every
    action below is one atomic step; a run is any sequence of enabled actions, so it covers
    every interleaving. */
module Pipe {
  import opened Common

  /** `Left` is the client's channel (lch), `Right` the one to the target host (rch). */
  datatype Side = Left | Right {
    function Other(): Side {
      if Left? then Right else Left
    }
  }

  datatype Two<T> = Two(left: T, right: T) {
    function At(s: Side): T {
      if s.Left? then left else right
    }

    function With(s: Side, v: T): Two<T> {
      if s.Left? then this.(left := v) else this.(right := v)
    }
  }

  datatype Request = Request(kind: string, wantReply: bool, payload: seq<byte>)

  /** What this process does on one SSH channel, and how it went: the bytes that were accepted, whether SendRequest
      failed, whether the reply could not be delivered.  `DeferredClose` is the one that `pipe` runs on return. */
  datatype Op =
    | Data(bytes: seq<byte>)
    | Ask(req: Request, failed: bool)
    | Answer(ok: bool, lost: bool)
    | CloseWrite
    | Close
    | DeferredClose

  /** One SSH channel.  `arrived` and `requests` are all that the peer ever sent; `taken` and `pulled`
      count what the workers have consumed; `answers` are the far side's results for the forwarded requests. */
  datatype Channel = Channel(
    arrived: seq<byte>, taken: nat, eof: bool,
    requests: seq<Request>, pulled: nat, answers: seq<bool>, closed: bool,
    ops: seq<Op>)
  {
    /** Once closed, by this process or by its peer, a channel takes no message any more. */
    predicate Refuses() {
      closed || Close in ops || DeferredClose in ops
    }
  }

  /** How a Read ended: more may follow, end of file, or a failure. */
  datatype ReadEnd = More | Ended | Failed

  /** Program counter of `io.Copy` followed by the send on `quit`. */
  datatype CopyPc = Reading | Writing(chunk: seq<byte>, end: ReadEnd) | CopyAnnouncing | CopyGone

  /** `broken`: the copy ended because of a failing Read or Write rather than end of file. */
  datatype Copying = Copying(pc: CopyPc, broken: bool)

  /** Program counter of a request forwarder.  `Raising` and `RaisingReply` are sends on `errch`. */
  datatype ForwardPc =
    | Ranging
    | Sending(req: Request)
    | Logging(req: Request, ok: bool, failed: bool)
    | Raising(req: Request, ok: bool)
    | Replying(req: Request, ok: bool)
    | RaisingReply
    | ForwardAnnouncing
    | ForwardGone

  /** A worker, and also the token it sends on `quit`: "lch", "rch", "lreqs" or "rreqs". */
  datatype Worker = Copier(from: Side) | Forwarder(from: Side)

  /** Program counter of the event loop. */
  datatype LoopPc = Select | HalfClose(target: Side) | TestLeft | TestRight | TestAll | Returned(failed: bool)

  datatype State = State(
    chan: Two<Channel>,
    copier: Two<Copying>,
    forwarder: Two<ForwardPc>,
    errch: bool,                // a value is buffered in errch
    quit: Option<Worker>,       // the value buffered in quit
    eofSeen: Two<bool>,         // lchEOF, rchEOF
    reqsDone: Two<bool>,        // lchClosed, rchClosed
    loop: LoopPc,
    execLog: seq<seq<byte>>)    // the lines written for "exec" requests
  {
    /** The flag of the event loop in which the token of `w` is recorded. */
    predicate Recorded(w: Worker) {
      match w
      case Copier(s) => eofSeen.At(s)
      case Forwarder(s) => reqsDone.At(s)
    }

    predicate Announcing(w: Worker) {
      match w
      case Copier(s) => copier.At(s).pc.CopyAnnouncing?
      case Forwarder(s) => forwarder.At(s).ForwardAnnouncing?
    }

    predicate Gone(w: Worker) {
      match w
      case Copier(s) => copier.At(s).pc.CopyGone?
      case Forwarder(s) => forwarder.At(s).ForwardGone?
    }

    predicate AllRecorded() {
      eofSeen.left && eofSeen.right && reqsDone.left && reqsDone.right
    }
  }

  const EXEC := "exec"
  const NEWLINE: byte := 10

  datatype PeerEvent = PeerData(bytes: seq<byte>) | PeerEof | PeerRequest(req: Request) | PeerClose

  datatype CopyStep = Read(n: nat, end: ReadEnd) | Write(accepted: nat, broke: bool) | AnnounceCopy

  datatype ForwardStep =
    | Pull
    | Send(ok: bool, failed: bool)
    | LogExec
    | Raise
    | Reply(undelivered: bool)
    | EndRange
    | AnnounceForward

  datatype LoopStep = TakeError | TakeToken | Continue

  /** `Peer(s, _)` is a message from the other end of channel `s`; `Copy(s, _)` a step of the goroutine that
      copies from `s`; `Forward(s, _)` one of the goroutine that forwards the requests of `s`. */
  datatype Action =
    | Peer(s: Side, event: PeerEvent)
    | Copy(s: Side, copyStep: CopyStep)
    | Forward(s: Side, forwardStep: ForwardStep)
    | Loop(loopStep: LoopStep)
    | Stutter

  function FreshChannel(): Channel {
    Channel([], 0, false, [], 0, [], false, [])
  }

  /** The state once all goroutines are started. */
  function Init(): State {
    State(Two(FreshChannel(), FreshChannel()),
          Two(Copying(Reading, false), Copying(Reading, false)),
          Two(Ranging, Ranging),
          false, None, Two(false, false), Two(false, false), Select, [])
  }

  predicate PeerEnabled(c: Channel, e: PeerEvent) {
    match e
    case PeerData(_) => !c.eof
    case PeerRequest(_) => !c.closed
    case PeerEof => true
    case PeerClose => true
  }

  predicate CopyEnabled(s: State, d: Side, step: CopyStep) {
    var c, pc := s.chan.At(d), s.copier.At(d).pc;
    match step
    case Read(n, end) =>
      && pc.Reading?
      && c.taken + n <= |c.arrived|
      && (n == 0 ==> end != More)
      && (end == Ended ==> c.taken + n == |c.arrived| && c.eof)
    case Write(accepted, broke) =>
      && pc.Writing?
      && accepted <= |pc.chunk|
      && (accepted < |pc.chunk| ==> broke)
      && (s.chan.At(d.Other()).Refuses() ==> accepted == 0)
    case AnnounceCopy => pc.CopyAnnouncing? && s.quit.None?
  }

  predicate ForwardEnabled(s: State, d: Side, step: ForwardStep) {
    var c, pc := s.chan.At(d), s.forwarder.At(d);
    match step
    case Pull => pc.Ranging? && c.pulled < |c.requests|
    case Send(ok, failed) =>
      pc.Sending? && (ok ==> pc.req.wantReply) && (s.chan.At(d.Other()).Refuses() ==> failed)
    case LogExec => pc.Logging?
    case Raise => (pc.Raising? || pc.RaisingReply?) && !s.errch
    case Reply(undelivered) =>
      && pc.Replying?
      && (undelivered ==> pc.req.wantReply)
      && (c.Refuses() && pc.req.wantReply ==> undelivered)
    case EndRange => pc.Ranging? && c.pulled >= |c.requests| && c.closed
    case AnnounceForward => pc.ForwardAnnouncing? && s.quit.None?
  }

  predicate LoopEnabled(s: State, step: LoopStep) {
    match step
    case TakeError => s.loop.Select? && s.errch
    case TakeToken => s.loop.Select? && s.quit.Some?
    case Continue => !s.loop.Select? && !s.loop.Returned?
  }

  predicate Enabled(s: State, a: Action) {
    match a
    case Peer(d, e) => PeerEnabled(s.chan.At(d), e)
    case Copy(d, step) => CopyEnabled(s, d, step)
    case Forward(d, step) => ForwardEnabled(s, d, step)
    case Loop(step) => LoopEnabled(s, step)
    case Stutter => true
  }

  function ApplyPeer(c: Channel, e: PeerEvent): Channel {
    match e
    case PeerData(bytes) => c.(arrived := c.arrived + bytes)
    case PeerEof => c.(eof := true)
    case PeerRequest(req) => c.(requests := c.requests + [req])
    case PeerClose => c.(eof := true, closed := true)
  }

  function Perform(s: State, d: Side, op: Op): State {
    var c := s.chan.At(d);
    s.(chan := s.chan.With(d, c.(ops := c.ops + [op])))
  }

  /** What follows a Write: another Read, or the end of the copy. */
  function AfterWrite(end: ReadEnd, broke: bool): Copying {
    if broke || end != More then Copying(CopyAnnouncing, broke || end == Failed) else Copying(Reading, false)
  }

  /** The steps of `io.Copy` from side `d` to the other side, then the send on `quit`. */
  function ApplyCopy(s: State, d: Side, step: CopyStep): State
    requires CopyEnabled(s, d, step)
  {
    match step
    case Read(n, end) =>
      var c := s.chan.At(d);
      if n == 0 then
        s.(copier := s.copier.With(d, Copying(CopyAnnouncing, end == Failed)))
      else
        s.(chan := s.chan.With(d, c.(taken := c.taken + n)),
           copier := s.copier.With(d, Copying(Writing(c.arrived[c.taken..c.taken + n], end), false)))
    case Write(accepted, broke) =>
      var pc := s.copier.At(d).pc;
      Perform(s, d.Other(), Data(pc.chunk[..accepted])).(copier := s.copier.With(d, AfterWrite(pc.end, broke)))
    case AnnounceCopy =>
      s.(quit := Some(Copier(d)), copier := s.copier.With(d, s.copier.At(d).(pc := CopyGone)))
  }

  /** What follows SendRequest and, for an exec request, the log write. */
  function AfterSend(req: Request, ok: bool, failed: bool): ForwardPc {
    if failed then Raising(req, ok) else Replying(req, ok)
  }

  /** The steps of the loop over the requests of side `d`, then the send on `quit`. */
  function ApplyForward(s: State, d: Side, step: ForwardStep): State
    requires ForwardEnabled(s, d, step)
  {
    var c, pc := s.chan.At(d), s.forwarder.At(d);
    match step
    case Pull =>
      s.(chan := s.chan.With(d, c.(pulled := c.pulled + 1)),
         forwarder := s.forwarder.With(d, Sending(c.requests[c.pulled])))
    case Send(ok, failed) =>
      var noted := s.(chan := s.chan.With(d, c.(answers := c.answers + [ok])));
      var next := if d.Left? && pc.req.kind == EXEC then Logging(pc.req, ok, failed) else AfterSend(pc.req, ok, failed);
      Perform(noted, d.Other(), Ask(pc.req, failed)).(forwarder := s.forwarder.With(d, next))
    case LogExec =>
      var req := pc.req.(payload := pc.req.payload + [NEWLINE]);
      s.(execLog := s.execLog + [req.payload],
         forwarder := s.forwarder.With(d, AfterSend(req, pc.ok, pc.failed)))
    case Raise =>
      s.(errch := true,
         forwarder := s.forwarder.With(d, if pc.Raising? then Replying(pc.req, pc.ok) else Ranging))
    case Reply(undelivered) =>
      (if pc.req.wantReply then Perform(s, d, Answer(pc.ok, undelivered)) else s)
      .(forwarder := s.forwarder.With(d, if undelivered then RaisingReply else Ranging))
    case EndRange => s.(forwarder := s.forwarder.With(d, ForwardAnnouncing))
    case AnnounceForward =>
      s.(quit := Some(Forwarder(d)), forwarder := s.forwarder.With(d, ForwardGone))
  }

  /** Leaves `pipe`: the deferred function closes both channels. */
  function Return(s: State, failed: bool): State {
    Perform(Perform(s, Left, DeferredClose), Right, DeferredClose).(loop := Returned(failed))
  }

  /** The assignment of a flag for the token `w`. */
  function Record(s: State, w: Worker): State {
    match w
    case Copier(d) => s.(eofSeen := s.eofSeen.With(d, true), loop := HalfClose(d.Other()))
    case Forwarder(d) => s.(reqsDone := s.reqsDone.With(d, true), loop := TestLeft)
  }

  /** The test that closes channel `d` once the other side has ended and `d` has not. */
  function CloseIfOver(s: State, d: Side): State {
    if s.eofSeen.At(d.Other()) && s.reqsDone.At(d.Other()) && !s.reqsDone.At(d) then Perform(s, d, Close) else s
  }

  function ApplyLoop(s: State, step: LoopStep): State
    requires LoopEnabled(s, step)
  {
    match step
    case TakeError => Return(s.(errch := false), true)
    case TakeToken => Record(s.(quit := None), s.quit.value)
    case Continue =>
      match s.loop
      case HalfClose(d) => Perform(s, d, CloseWrite).(loop := TestLeft)
      case TestLeft => CloseIfOver(s, Right).(loop := TestRight)
      case TestRight => CloseIfOver(s, Left).(loop := TestAll)
      case TestAll => if s.AllRecorded() then Return(s, false) else s.(loop := Select)
  }

  function Apply(s: State, a: Action): State
    requires Enabled(s, a)
  {
    match a
    case Peer(d, e) => s.(chan := s.chan.With(d, ApplyPeer(s.chan.At(d), e)))
    case Copy(d, step) => ApplyCopy(s, d, step)
    case Forward(d, step) => ApplyForward(s, d, step)
    case Loop(step) => ApplyLoop(s, step)
    case Stutter => s
  }

  /** `acts` can be run from `s`. */
  predicate Runs(s: State, acts: seq<Action>)
    decreases |acts|
  {
    acts == [] || (Enabled(s, acts[0]) && Runs(Apply(s, acts[0]), acts[1..]))
  }

  /** The state after running `acts` from `s`. */
  function Exec(s: State, acts: seq<Action>): State
    requires Runs(s, acts)
    decreases |acts|
  {
    if acts == [] then s else Exec(Apply(s, acts[0]), acts[1..])
  }
}
