/** What a user types into a telnet session: complete lines, sent with CR LF at their end. */
module TelnetLines {
  import opened Common

  const CR: byte := 13
  const LF: byte := 10
  const CRLF: seq<byte> := [CR, LF]

  /** The longest line the scanner takes, with its end. */
  const LIMIT: nat := 65536

  /** Where the first line ends. */
  function LineEnd(s: seq<byte>): (r: Option<nat>)
    ensures r.Some? ==> r.value < |s| && s[r.value] == LF && LF !in s[..r.value]
    ensures r.None? ==> LF !in s
  {
    if s == [] then None
    else if s[0] == LF then Some(0)
    else match LineEnd(s[1..])
      case None => None
      case Some(i) => assert s[..i + 1] == [s[0]] + s[1..][..i]; Some(i + 1)
  }

  function DropCR(line: seq<byte>): seq<byte> {
    if line != [] && line[|line| - 1] == CR then line[..|line| - 1] else line
  }

  /** The lines of `s` as they are sent, up to the first that is not complete within `limit` bytes. */
  function Convert(limit: nat, s: seq<byte>): seq<byte>
    decreases |s|
  {
    match LineEnd(s)
    case None => []
    case Some(i) => if i >= limit then [] else DropCR(s[..i]) + CRLF + Convert(limit, s[i + 1..])
  }

  /** What is left once the lines `Convert` takes are gone. */
  function Pending(limit: nat, s: seq<byte>): (t: seq<byte>)
    ensures LineEnd(t).None? || LineEnd(t).value >= limit
    decreases |s|
  {
    match LineEnd(s)
    case None => s
    case Some(i) => if i >= limit then s else Pending(limit, s[i + 1..])
  }

  lemma {:induction false} LineEndIs(s: seq<byte>, i: nat)
    requires i < |s| && s[i] == LF && LF !in s[..i]
    ensures LineEnd(s) == Some(i)
    decreases i
  {
    if i > 0 {
      assert s[0] == s[..i][0];
      assert s[1..][..i - 1] == s[..i][1..];
      LineEndIs(s[1..], i - 1);
    }
  }

  /** What comes later does not change where the first line ends. */
  lemma {:induction false} LineEndOfPrefix(s: seq<byte>, more: seq<byte>)
    ensures match LineEnd(s)
            case Some(i) => LineEnd(s + more) == Some(i)
            case None => LineEnd(s + more).None? || LineEnd(s + more).value >= |s|
    decreases |s|
  {
    if s != [] {
      assert (s + more)[1..] == s[1..] + more;
      LineEndOfPrefix(s[1..], more);
    }
  }

  /** Conversion does not depend on where the input is cut: what was pending is taken up with what follows. */
  lemma {:induction false} ConvertSplits(limit: nat, s: seq<byte>, more: seq<byte>)
    ensures Convert(limit, s + more) == Convert(limit, s) + Convert(limit, Pending(limit, s) + more)
    ensures Pending(limit, s + more) == Pending(limit, Pending(limit, s) + more)
    decreases |s|
  {
    match LineEnd(s) {
      case None =>
      case Some(i) =>
        LineEndOfPrefix(s, more);
        if i < limit {
          var t, rest := s + more, s[i + 1..];
          assert t[..i] == s[..i] && t[i + 1..] == rest + more;
          ConvertSplits(limit, rest, more);
          Regroup(DropCR(s[..i]) + CRLF, Convert(limit, rest), Convert(limit, Pending(limit, rest) + more));
        }
    }
  }

  /** Nothing is sent exactly when no line is complete within the limit. */
  lemma NothingSent(limit: nat, s: seq<byte>)
    ensures Convert(limit, s) == [] <==> LineEnd(s).None? || LineEnd(s).value >= limit
  {
  }

  /** What arrives together with the end of the input is lost: it makes no difference exactly when it completes no
      line. */
  lemma LastReadMatters(limit: nat, before: seq<byte>, last: seq<byte>)
    ensures Convert(limit, before + last) == Convert(limit, before) <==>
            var t := Pending(limit, before) + last; LineEnd(t).None? || LineEnd(t).value >= limit
  {
    ConvertSplits(limit, before, last);
    NothingSent(limit, Pending(limit, before) + last);
  }

  // ---- what conversion means -----------------------------------------------------------------------------

  /** Lines, each ended by LF, then a tail. */
  function Joined(lines: seq<seq<byte>>, tail: seq<byte>): seq<byte> {
    if lines == [] then tail else lines[0] + [LF] + Joined(lines[1..], tail)
  }

  /** Each line less one trailing CR, ended by CR LF. */
  function Sent(lines: seq<seq<byte>>): seq<byte> {
    if lines == [] then [] else DropCR(lines[0]) + CRLF + Sent(lines[1..])
  }

  lemma {:induction false} EachLineIsSent(limit: nat, lines: seq<seq<byte>>, tail: seq<byte>)
    requires forall line | line in lines :: LF !in line && |line| < limit
    requires LF !in tail
    ensures Convert(limit, Joined(lines, tail)) == Sent(lines)
    decreases |lines|
  {
    if lines != [] {
      var s, i, rest := Joined(lines, tail), |lines[0]|, Joined(lines[1..], tail);
      assert s[..i] == lines[0] && s[i + 1..] == rest;
      LineEndIs(s, i);
      EachLineIsSent(limit, lines[1..], tail);
    }
  }

  /** One line, octet by octet: it is sent less one trailing 13, with 13 and 10 after it, if it has less than 65536
      octets; a longer one stops the scanner. */
  lemma LineIsSent(line: seq<byte>, rest: seq<byte>)
    requires 10 !in line
    ensures Convert(LIMIT, line + [10] + rest) ==
              if |line| >= 65536 then []
              else if line != [] && line[|line| - 1] == 13 then line[..|line| - 1] + [13, 10] + Convert(LIMIT, rest)
              else line + [13, 10] + Convert(LIMIT, rest)
  {
    var s := line + [10] + rest;
    assert s[..|line|] == line && s[|line| + 1..] == rest;
    LineEndIs(s, |line|);
  }

  /** Every input is lines and a tail. */
  lemma {:induction false} InputIsLines(s: seq<byte>) returns (lines: seq<seq<byte>>, tail: seq<byte>)
    ensures s == Joined(lines, tail) && LF !in tail
    ensures forall line | line in lines :: LF !in line && |line| < |s|
    decreases |s|
  {
    match LineEnd(s) {
      case None => lines, tail := [], s;
      case Some(i) =>
        var more, t := InputIsLines(s[i + 1..]);
        lines, tail := [s[..i]] + more, t;
        assert s == s[..i] + [LF] + s[i + 1..];
        assert lines[1..] == more;
    }
  }

  /** The sent form of each line fits the limit too. */
  predicate Roomy(limit: nat, s: seq<byte>)
    decreases |s|
  {
    match LineEnd(s)
    case None => true
    case Some(i) => i < limit ==> |DropCR(s[..i])| + 1 < limit && Roomy(limit, s[i + 1..])
  }

  lemma ConvertLine(limit: nat, line: seq<byte>, rest: seq<byte>)
    requires LF !in line
    ensures Convert(limit, line + CRLF + rest) == if |line| + 1 < limit then line + CRLF + Convert(limit, rest) else []
  {
    var s, i := line + CRLF + rest, |line| + 1;
    assert s[..i] == line + [CR] && s[i + 1..] == rest;
    LineEndIs(s, i);
    assert DropCR(line + [CR]) == line;
  }

  lemma SameTail(a: seq<byte>, b: seq<byte>, c: seq<byte>)
    ensures a + b == a + c <==> b == c
  {
    if a + b == a + c {
      assert (a + b)[|a|..] == b && (a + c)[|a|..] == c;
    }
  }

  /** Converting again changes nothing, exactly when no line grows beyond the limit by its CR. */
  lemma {:induction false} ConvertAgain(limit: nat, s: seq<byte>)
    ensures Convert(limit, Convert(limit, s)) == Convert(limit, s) <==> Roomy(limit, s)
    decreases |s|
  {
    match LineEnd(s) {
      case None =>
      case Some(i) =>
        if i < limit {
          var line, rest := DropCR(s[..i]), s[i + 1..];
          ConvertAgain(limit, rest);
          ConvertLine(limit, line, Convert(limit, rest));
          SameTail(line + CRLF, Convert(limit, Convert(limit, rest)), Convert(limit, rest));
        }
    }
  }

  // ---- the session ---------------------------------------------------------------------------------------

  /** `s` without its last `k` bytes. */
  function Before(s: seq<byte>, k: nat): seq<byte>
    requires k <= |s|
  {
    s[..|s| - k]
  }

  /** The user's session: a read returns some of what is to come, and the last bytes may come together with the
      end of the input unless the end always comes alone. */
  class Session {
    const endsAlone: bool
    var rest: seq<byte>
    /** How many bytes came with the end. */
    var late: nat

    constructor (input: seq<byte>, endsAlone: bool)
      ensures rest == input && late == 0 && this.endsAlone == endsAlone
    {
      rest, late, this.endsAlone := input, 0, endsAlone;
    }

    method Read(room: nat) returns (data: seq<byte>, eof: bool)
      requires room > 0
      modifies this
      ensures old(rest) == data + rest && |data| <= room
      ensures if eof then rest == [] && late == |data| else data != [] && late == old(late)
      ensures eof && endsAlone ==> data == []
    {
      var n: nat :| n <= room && n <= |rest| && (n == 0 ==> rest == []);
      data, rest := rest[..n], rest[n..];
      eof := data == [];
      if rest == [] && !endsAlone {
        eof := *;
        eof := eof || data == [];
      }
      if eof {
        late := |data|;
      }
    }
  }

  class Scanner {
    const source: Session
    const limit: nat
    var pending: seq<byte>

    constructor (source: Session, limit: nat)
      ensures this.source == source && this.limit == limit && pending == []
    {
      this.source, this.limit, pending := source, limit, [];
    }

    /** What is not scanned yet. */
    ghost function Left(): seq<byte>
      reads this, source
    {
      pending + source.rest
    }

    /** The next line, from what is pending or after reading more; none at the end of the input, even if lines
        came with it, or if the line is too long. */
    method Scan() returns (token: Option<seq<byte>>)
      requires |pending| <= limit && source.late == 0
      modifies this, source
      ensures |pending| <= limit && source.late <= |old(source.rest)| && |source.rest| <= |old(source.rest)|
      ensures token.Some? ==>
                && source.late == 0
                && var end := LineEnd(old(Left()));
                && end.Some? && end.value < limit && end.value < |old(Left())| - |source.rest|
                && token.value == DropCR(old(Left())[..end.value])
                && Left() == old(Left())[end.value + 1..]
      ensures token.None? ==> Convert(limit, Before(old(Left()), source.late)) == []
      ensures source.endsAlone ==> source.late == 0
    {
      ghost var left := Left();
      while true
        invariant |pending| <= limit && source.late == 0 && Left() == left && |source.rest| <= |old(source.rest)|
        decreases |source.rest|
      {
        var end := LineEnd(pending);
        LineEndOfPrefix(pending, source.rest);
        if end.Some? {
          assert left[..end.value] == pending[..end.value];
          assert left[end.value + 1..] == pending[end.value + 1..] + source.rest;
          token := Some(DropCR(pending[..end.value]));
          pending := pending[end.value + 1..];
          return;
        }
        if |pending| == limit {
          assert Before(left, 0) == left;
          return None;
        }
        ghost var before := pending;
        var data, eof := source.Read(limit - |pending|);
        pending := pending + data;
        if eof {
          pending := [];
          assert Before(left, source.late) == before;
          return None;
        }
      }
    }
  }

  /** The host; it takes `room` more bytes before writing to it fails. */
  class Host {
    var sent: seq<byte>
    var room: nat

    method LongWrite(data: seq<byte>) returns (ok: bool)
      modifies this
      ensures ok == (|data| <= old(room))
      ensures sent == old(sent) + Cut(data, old(room)) && room == old(room) - |Cut(data, old(room))|
    {
      ok := |data| <= room;
      var n := if ok then |data| else room;
      sent, room := sent + data[..n], room - n;
    }
  }

  /** `taken` is whole lines, converted to `done`. */
  ghost predicate Taken(taken: seq<byte>, done: seq<byte>) {
    Convert(LIMIT, taken) == done && Pending(LIMIT, taken) == []
  }

  lemma GoOn(taken: seq<byte>, done: seq<byte>, more: seq<byte>)
    requires Taken(taken, done)
    ensures Convert(LIMIT, taken + more) == done + Convert(LIMIT, more)
    ensures Pending(LIMIT, taken + more) == Pending(LIMIT, more)
  {
    ConvertSplits(LIMIT, taken, more);
    assert [] + more == more;
  }

  lemma OneLine(left: seq<byte>, i: nat)
    requires LineEnd(left) == Some(i) && i < LIMIT
    ensures Taken(left[..i + 1], DropCR(left[..i]) + CRLF)
  {
    var line := left[..i + 1];
    assert line[..i] == left[..i] && line[i + 1..] == [];
    LineEndIs(line, i);
  }

  lemma TakeLine(taken: seq<byte>, done: seq<byte>, left: seq<byte>, i: nat)
    requires Taken(taken, done) && LineEnd(left) == Some(i) && i < LIMIT
    ensures Taken(taken + left[..i + 1], done + (DropCR(left[..i]) + CRLF))
    ensures taken + left == taken + left[..i + 1] + left[i + 1..]
  {
    GoOn(taken, done, left[..i + 1]);
    OneLine(left, i);
  }

  /** All that the host gets: the conversion of the input without its last `late` bytes, as far as it has room. */
  function Reaches(input: seq<byte>, late: nat, room: nat): seq<byte>
    requires late <= |input|
  {
    Cut(Convert(LIMIT, Before(input, late)), room)
  }

  /** With `left` still to come, and nothing more to send. */
  lemma AllSent(taken: seq<byte>, done: seq<byte>, left: seq<byte>, late: nat, room: nat)
    requires Taken(taken, done) && late <= |left| && |done| <= room
    requires Convert(LIMIT, Before(left, late)) == []
    ensures Reaches(taken + left, late, room) == done
  {
    assert Before(taken + left, late) == taken + Before(left, late);
    GoOn(taken, done, Before(left, late));
  }

  lemma HostFull(taken: seq<byte>, done: seq<byte>, line: seq<byte>, left: seq<byte>, room: nat)
    requires Taken(taken, done + line) && |done| <= room < |done| + |line|
    ensures Reaches(taken + left, 0, room) == done + Cut(line, room - |done|)
  {
    GoOn(taken, done + line, left);
    assert Before(taken + left, 0) == taken + left;
    CutTwice(done, line, room);
    CutTwice(done + line, Convert(LIMIT, left), room);
  }

  /** What reaches the host is the conversion of everything read before the last read, as far as the host takes it,
      however the reads split the input. */
  method CallTelnet(session: Session, host: Host)
    requires session.late == 0
    modifies session, host
    ensures session.late <= |old(session.rest)| && (session.endsAlone ==> session.late == 0)
    ensures host.sent == old(host.sent) + Reaches(old(session.rest), session.late, old(host.room))
  {
    ghost var input, sent, room := session.rest, host.sent, host.room;
    ghost var taken: seq<byte>, done: seq<byte> := [], [];
    var scanner := new Scanner(session, LIMIT);
    var buffer: seq<byte> := [];
    while true
      invariant scanner.source == session && scanner.limit == LIMIT && |scanner.pending| <= LIMIT && session.late == 0
      invariant buffer == [] && input == taken + scanner.Left()
      invariant Taken(taken, done)
      invariant |done| <= room && host.sent == sent + done && host.room == room - |done|
      decreases |scanner.Left()|
    {
      ghost var left := scanner.Left();
      var token := scanner.Scan();
      if token.None? {
        AllSent(taken, done, left, session.late, room);
        break;
      }
      buffer := buffer + token.value;
      buffer := buffer + CRLF;
      ghost var i, line := LineEnd(left).value, buffer;
      assert line == DropCR(left[..i]) + CRLF;
      TakeLine(taken, done, left, i);
      taken := taken + left[..i + 1];
      var ok := host.LongWrite(buffer);
      if !ok {
        HostFull(taken, done, line, scanner.Left(), room);
        Regroup(sent, done, Cut(line, room - |done|));
        break;
      }
      buffer := [];
      Regroup(sent, done, line);
      done := done + line;
    }
    assert host.sent == sent + Reaches(input, session.late, room);
  }
}
