/** The body of the event loop as the code runs it, refined against the transition system. */
module PipeEventLoop {
  import opened Common
  import opened Pipe
  import opened PipeSafety
  import opened PipeTheorems

  /** The event loop's steps alone, up to the next select or to the return. */
  function Finish(s: State): State
    requires !s.loop.Select? && !s.loop.Returned?
    decreases match s.loop { case HalfClose(_) => 4 case TestLeft => 3 case TestRight => 2 case _ => 1 }
  {
    var t := ApplyLoop(s, Continue);
    if t.loop.Select? || t.loop.Returned? then t else Finish(t)
  }

  /** One token handled without interference. */
  function Handle(s: State): State
    requires LoopEnabled(s, TakeToken)
  {
    Finish(ApplyLoop(s, TakeToken))
  }

  lemma {:induction false} FinishReachable(s: State)
    requires Reachable(s) && !s.loop.Select? && !s.loop.Returned?
    ensures Reachable(Finish(s))
    decreases match s.loop { case HalfClose(_) => 4 case TestLeft => 3 case TestRight => 2 case _ => 1 }
  {
    var t := Then(s, Loop(Continue));
    if !t.loop.Select? && !t.loop.Returned? {
      FinishReachable(t);
    }
  }

  /** Handling a token in one go is one of the interleavings. */
  lemma HandleReachable(s: State)
    requires Reachable(s) && LoopEnabled(s, TakeToken)
    ensures Reachable(Handle(s))
  {
    var t := Then(s, Loop(TakeToken));
    FinishReachable(t);
  }

  /** The token's flag is set and, for a copier, the other channel is half-closed. */
  function Noted(s: State): State
    requires LoopEnabled(s, TakeToken)
  {
    var t := ApplyLoop(s, TakeToken);
    if t.loop.TestLeft? then t else ApplyLoop(t, Continue)
  }

  lemma HandleIs(s: State)
    requires LoopEnabled(s, TakeToken)
    ensures Noted(s).loop == TestLeft
    ensures var t := CloseIfOver(CloseIfOver(Noted(s), Right), Left);
            Handle(s) == if t.AllRecorded() then Return(t.(loop := TestAll), false) else t.(loop := Select)
  {
    FinishIs(Noted(s));
  }

  lemma FinishIs(s: State)
    requires s.loop.TestLeft?
    ensures var t := CloseIfOver(CloseIfOver(s, Right), Left);
            Finish(s) == if t.AllRecorded() then Return(t.(loop := TestAll), false) else t.(loop := Select)
  {
    var s3 := ApplyLoop(s, Continue);
    var s4 := ApplyLoop(s3, Continue);
    assert Finish(s) == Finish(s3) == Finish(s4);
  }

  /** The flags and the histories of both channels. */
  ghost predicate Shows(s: State, eofSeen: Two<bool>, reqsDone: Two<bool>, lch: seq<Op>, rch: seq<Op>) {
    s.eofSeen == eofSeen && s.reqsDone == reqsDone && s.chan.left.ops == lch && s.chan.right.ops == rch
  }

  lemma NotedShows(s: State, q: Worker)
    requires s.loop.Select? && s.quit == Some(q)
    ensures Shows(Noted(s),
                  if q.Copier? then s.eofSeen.With(q.from, true) else s.eofSeen,
                  if q.Forwarder? then s.reqsDone.With(q.from, true) else s.reqsDone,
                  s.chan.left.ops + if q == Copier(Right) then [CloseWrite] else [],
                  s.chan.right.ops + if q == Copier(Left) then [CloseWrite] else [])
  {
  }

  lemma CloseShows(s: State)
    ensures Shows(CloseIfOver(s, Right), s.eofSeen, s.reqsDone, s.chan.left.ops,
                  s.chan.right.ops + if s.eofSeen.left && s.reqsDone.left && !s.reqsDone.right then [Close] else [])
    ensures Shows(CloseIfOver(s, Left), s.eofSeen, s.reqsDone,
                  s.chan.left.ops + (if s.eofSeen.right && s.reqsDone.right && !s.reqsDone.left then [Close] else []),
                  s.chan.right.ops)
  {
  }

  lemma ReturnShows(s: State)
    ensures Shows(Return(s, false), s.eofSeen, s.reqsDone, s.chan.left.ops + [DeferredClose],
                  s.chan.right.ops + [DeferredClose])
  {
  }

  lemma HandleShows(s: State)
    requires LoopEnabled(s, TakeToken)
    ensures var t, u := CloseIfOver(CloseIfOver(Noted(s), Right), Left), Handle(s);
            var l, r := t.chan.left.ops, t.chan.right.ops;
            if t.AllRecorded() then
              Shows(u, t.eofSeen, t.reqsDone, l + [DeferredClose], r + [DeferredClose]) && u.loop == Returned(false)
            else
              Shows(u, t.eofSeen, t.reqsDone, l, r) && u.loop == Select
  {
    HandleIs(s);
    ReturnShows(CloseIfOver(CloseIfOver(Noted(s), Right), Left).(loop := TestAll));
  }

  /** The variables of `pipe` that its event loop assigns, and the calls made on the two channels. */
  class EventLoop {
    var lchEOF: bool
    var rchEOF: bool
    var lchClosed: bool
    var rchClosed: bool
    var lch: seq<Op>
    var rch: seq<Op>

    constructor ()
      ensures Sees(Init())
    {
      lchEOF, rchEOF, lchClosed, rchClosed := false, false, false, false;
      lch, rch := [], [];
    }

    ghost predicate Sees(s: State)
      reads this
    {
      Shows(s, Two(lchEOF, rchEOF), Two(lchClosed, rchClosed), lch, rch)
    }

    /** The case `q := <-quit` of the select. */
    method OnToken(q: Worker, ghost s: State) returns (done: bool)
      requires Sees(s) && s.loop.Select? && s.quit == Some(q)
      modifies this
      ensures Sees(Handle(s))
      ensures done <==> Handle(s).loop == Returned(false)
      ensures !done ==> Handle(s).loop == Select
    {
      NotedShows(s, q);
      match q {
        case Copier(Left) => lchEOF := true; rch := rch + [CloseWrite];
        case Copier(Right) => rchEOF := true; lch := lch + [CloseWrite];
        case Forwarder(Left) => lchClosed := true;
        case Forwarder(Right) => rchClosed := true;
      }
      ghost var t := Noted(s);
      assert Sees(t);
      CloseShows(t);
      if lchEOF && lchClosed && !rchClosed { rch := rch + [Close]; }
      t := CloseIfOver(t, Right);
      assert Sees(t);
      CloseShows(t);
      if rchEOF && rchClosed && !lchClosed { lch := lch + [Close]; }
      t := CloseIfOver(t, Left);
      assert Sees(t);
      done := lchEOF && rchEOF && lchClosed && rchClosed;
      HandleShows(s);
      if done {
        lch, rch := lch + [DeferredClose], rch + [DeferredClose];
      }
    }
  }
}
