/** The log of forwarded connections: several tunnels append frames to one writer, each frame a header (seconds,
    microseconds, length) followed by the host's name and the data. */
module LogTunnel {
  import opened Common

  // ---- integers of a fixed width, least significant byte first -------------------------------------------

  function Pow256(n: nat): (p: nat)
    ensures p > 0
  {
    if n == 0 then 1 else 256 * Pow256(n - 1)
  }

  /** The low `n` bytes of `v`, which may be negative. */
  function LittleEndian(v: int, n: nat): (s: seq<byte>)
    ensures |s| == n
  {
    seq(n, i requires 0 <= i < n => (v / Pow256(i) % 256) as byte)
  }

  function Unsigned(s: seq<byte>): (v: nat)
    ensures v < Pow256(|s|)
  {
    if s == [] then 0 else s[0] as int + 256 * Unsigned(s[1..])
  }

  /** Two's complement. */
  function Signed(s: seq<byte>): (v: int)
    ensures Fits(v, |s|)
  {
    var u := Unsigned(s);
    if 2 * u < Pow256(|s|) then u else u - Pow256(|s|)
  }

  /** The integers an `n`-byte signed field can hold. */
  predicate Fits(v: int, n: nat) {
    0 <= 2 * v + Pow256(n) < 2 * Pow256(n)
  }

  lemma DivideTwice(v: int, p: nat)
    requires p > 0
    ensures v / (256 * p) == (v / 256) / p
  {
    var q, r := (v / 256) / p, (v / 256) % p;
    assert v == 256 * (q * p + r) + v % 256;
    assert 256 * (q * p) == q * (256 * p);
    QuotientIs(v, 256 * p, q, 256 * r + v % 256);
  }

  lemma FirstByte(v: int, n: nat)
    requires n > 0
    ensures LittleEndian(v, n)[0] as int == v % 256 && LittleEndian(v, n)[1..] == LittleEndian(v / 256, n - 1)
  {
    forall i | 1 <= i < n ensures LittleEndian(v, n)[i] == LittleEndian(v / 256, n - 1)[i - 1] {
      DivideTwice(v, Pow256(i - 1));
    }
  }

  lemma {:induction false} UnsignedIsCongruent(v: int, n: nat) returns (k: int)
    ensures v == Unsigned(LittleEndian(v, n)) + k * Pow256(n)
    decreases n
  {
    if n == 0 {
      k := v;
    } else {
      k := UnsignedIsCongruent(v / 256, n - 1);
      FirstByte(v, n);
      Scale(v, k, Unsigned(LittleEndian(v / 256, n - 1)), Pow256(n - 1));
    }
  }

  lemma Scale(v: int, k: int, u: int, p: int)
    requires v / 256 == u + k * p
    ensures v == v % 256 + 256 * u + k * (256 * p)
  {
    assert 256 * (k * p) == k * (256 * p);
  }

  /** A value comes back exactly when the field is wide enough. */
  lemma SignedRoundTrip(v: int, n: nat)
    ensures Signed(LittleEndian(v, n)) == v <==> Fits(v, n)
  {
    var k := UnsignedIsCongruent(v, n);
    Multiples(k, Pow256(n));
  }

  /** The bytes of a value read from them, taken as unsigned or as signed. */
  lemma {:induction false} BytesOfUnsigned(s: seq<byte>, v: int)
    requires v == Unsigned(s) || v == Unsigned(s) - Pow256(|s|)
    ensures LittleEndian(v, |s|) == s
    decreases |s|
  {
    if s != [] {
      var u: int, p: int := Unsigned(s[1..]), Pow256(|s| - 1);
      assert v == s[0] as int + 256 * u || v == s[0] as int + 256 * (u - p);
      FirstByte(v, |s|);
      BytesOfUnsigned(s[1..], v / 256);
      var t := LittleEndian(v, |s|);
      assert t == [t[0]] + t[1..];
      assert s == [s[0]] + s[1..];
    }
  }

  lemma SignedBytesRoundTrip(s: seq<byte>)
    ensures LittleEndian(Signed(s), |s|) == s
  {
    BytesOfUnsigned(s, Signed(s));
  }

  /** Four bytes, by their places. */
  lemma FourBytes(v: int)
    ensures var s := LittleEndian(v, 4);
            v % 0x1_0000_0000 == s[0] as int + 0x100 * s[1] as int + 0x1_0000 * s[2] as int + 0x100_0000 * s[3] as int
  {
    var s := LittleEndian(v, 4);
    var k := UnsignedIsCongruent(v, 4);
    UnsignedOfFour(s);
    assert Pow256(4) == 0x1_0000_0000;
    QuotientIs(v, 0x1_0000_0000, k, Unsigned(s));
  }

  lemma UnsignedOfFour(s: seq<byte>)
    requires |s| == 4
    ensures Unsigned(s) == s[0] as int + 0x100 * s[1] as int + 0x1_0000 * s[2] as int + 0x100_0000 * s[3] as int
  {
    assert Unsigned(s[1..][1..][1..]) == s[3] as int;
    assert Unsigned(s[1..][1..]) == s[2] as int + 0x100 * s[3] as int;
  }

  // ---- frames --------------------------------------------------------------------------------------------

  /** The width of the seconds and of the length. */
  const INT32: nat := 4

  /** A record of the log; `seconds` and `micros` are when it was written. */
  datatype Frame = Frame(seconds: int, micros: int, payload: seq<byte>) {
    /** The header can express the frame when microseconds take `w` bytes. */
    predicate Fit(w: nat) {
      Fits(seconds, INT32) && Fits(micros, w) && Fits(|payload|, INT32)
    }
  }

  /** The platform's width of the microsecond field. */
  predicate IsWidth(w: nat) {
    w == 4 || w == 8
  }

  function Header(w: nat, seconds: int, micros: int, length: int): (s: seq<byte>)
    ensures |s| == 8 + w
  {
    LittleEndian(seconds, INT32) + LittleEndian(micros, w) + LittleEndian(length, INT32)
  }

  function Bytes(w: nat, f: Frame): seq<byte> {
    Header(w, f.seconds, f.micros, |f.payload|) + f.payload
  }

  function LogOf(w: nat, fs: seq<Frame>): seq<byte> {
    if fs == [] then [] else Bytes(w, fs[0]) + LogOf(w, fs[1..])
  }

  /** The first frame of a log and what follows it, if a whole frame is there. */
  function First(w: nat, log: seq<byte>): (r: Option<(Frame, seq<byte>)>)
    ensures r.Some? ==> |r.value.1| < |log|
  {
    if |log| < 8 + w then None else
    var length := Signed(log[4 + w..8 + w]);
    if length < 0 || |log| < 8 + w + length then None else
    Some((Frame(Signed(log[..4]), Signed(log[4..4 + w]), log[8 + w..8 + w + length]), log[8 + w + length..]))
  }

  /** The whole frames at the start of a log, and what is left. */
  function Parse(w: nat, log: seq<byte>): (seq<Frame>, seq<byte>)
    decreases |log|
  {
    match First(w, log)
    case None => ([], log)
    case Some((f, rest)) => var (fs, left) := Parse(w, rest); ([f] + fs, left)
  }

  lemma SplitHeader(w: nat, f: Frame, rest: seq<byte>)
    ensures var log := Bytes(w, f) + rest;
            && |log| == 8 + w + |f.payload| + |rest|
            && log[..4] == LittleEndian(f.seconds, INT32)
            && log[4..4 + w] == LittleEndian(f.micros, w)
            && log[4 + w..8 + w] == LittleEndian(|f.payload|, INT32)
            && log[8 + w..8 + w + |f.payload|] == f.payload
            && log[8 + w + |f.payload|..] == rest
  {
  }

  /** Reading back what was framed gives the frame and the rest, exactly when the header can express it. */
  lemma FirstOfBytes(w: nat, f: Frame, rest: seq<byte>)
    requires IsWidth(w)
    ensures First(w, Bytes(w, f) + rest) == Some((f, rest)) <==> f.Fit(w)
  {
    SplitHeader(w, f, rest);
    SignedRoundTrip(f.seconds, INT32);
    SignedRoundTrip(f.micros, w);
    SignedRoundTrip(|f.payload|, INT32);
  }

  /** Conversely a frame that was read is the one whose bytes are there. */
  lemma BytesOfFirst(w: nat, log: seq<byte>)
    requires IsWidth(w) && First(w, log).Some?
    ensures var (f, rest) := First(w, log).value; f.Fit(w) && Bytes(w, f) + rest == log
  {
    SignedBytesRoundTrip(log[..4]);
    SignedBytesRoundTrip(log[4..4 + w]);
    SignedBytesRoundTrip(log[4 + w..8 + w]);
    var (f, rest) := First(w, log).value;
    assert log[..4] + log[4..4 + w] + log[4 + w..8 + w] == log[..8 + w];
  }

  /** A log parses back into the frames written, exactly when the header can express each of them. */
  lemma {:induction false} ParseInvertsLogOf(w: nat, fs: seq<Frame>)
    requires IsWidth(w)
    ensures Parse(w, LogOf(w, fs)) == (fs, []) <==> forall f | f in fs :: f.Fit(w)
    decreases |fs|
  {
    if fs == [] {
      return;
    }
    var rest := LogOf(w, fs[1..]);
    ParseInvertsLogOf(w, fs[1..]);
    FirstOfBytes(w, fs[0], rest);
    assert fs == [fs[0]] + fs[1..];
    if Parse(w, LogOf(w, fs)) == (fs, []) {
      LogOfParse(w, LogOf(w, fs));
    }
  }

  /** Whatever the log, the frames read and the bytes left are the log again, and each frame fits. */
  lemma {:induction false} LogOfParse(w: nat, log: seq<byte>)
    requires IsWidth(w)
    ensures var (fs, left) := Parse(w, log);
            LogOf(w, fs) + left == log && forall f | f in fs :: f.Fit(w)
    decreases |log|
  {
    if First(w, log).Some? {
      var (f, rest) := First(w, log).value;
      BytesOfFirst(w, log);
      LogOfParse(w, rest);
      var (fs, left) := Parse(w, rest);
      assert ([f] + fs)[1..] == fs;
      assert Bytes(w, f) + (LogOf(w, fs) + left) == Bytes(w, f) + LogOf(w, fs) + left;
    }
  }

  /** Two sequences of frames with the same bytes are the same frames. */
  lemma FramingIsUnique(w: nat, fs: seq<Frame>, gs: seq<Frame>)
    requires IsWidth(w) && LogOf(w, fs) == LogOf(w, gs)
    requires forall f | f in fs :: f.Fit(w)
    requires forall g | g in gs :: g.Fit(w)
    ensures fs == gs
  {
    ParseInvertsLogOf(w, fs);
    ParseInvertsLogOf(w, gs);
  }

  lemma CutAfterFrame(w: nat, f: Frame, rest: seq<byte>, n: nat)
    requires IsWidth(w) && f.Fit(w) && |Bytes(w, f)| <= n <= |Bytes(w, f) + rest|
    ensures Parse(w, (Bytes(w, f) + rest)[..n]).0 == [f] + Parse(w, rest[..n - |Bytes(w, f)|]).0
  {
    var cut := rest[..n - |Bytes(w, f)|];
    assert (Bytes(w, f) + rest)[..n] == Bytes(w, f) + cut;
    FirstOfBytes(w, f, cut);
  }

  lemma TakeOneMore(fs: seq<Frame>, k: nat)
    requires k < |fs|
    ensures fs[..k + 1] == [fs[0]] + fs[1..][..k]
  {
  }

  /** How many frames lie within the first `n` bytes of their log. */
  function WholeFrames(w: nat, fs: seq<Frame>, n: nat): (k: nat)
    ensures k <= |fs|
  {
    if fs == [] || n < |Bytes(w, fs[0])| then 0 else 1 + WholeFrames(w, fs[1..], n - |Bytes(w, fs[0])|)
  }

  /** A log cut off anywhere still gives the frames that were whole, in order. */
  lemma {:induction false} CutLogGivesWholeFrames(w: nat, fs: seq<Frame>, n: nat)
    requires IsWidth(w) && n <= |LogOf(w, fs)|
    requires forall f | f in fs :: f.Fit(w)
    ensures Parse(w, LogOf(w, fs)[..n]).0 == fs[..WholeFrames(w, fs, n)]
    decreases |fs|
  {
    if fs != [] {
      var rest, m := LogOf(w, fs[1..]), |Bytes(w, fs[0])|;
      if n < m {
        ShortOfFrame(w, fs[0], rest, n);
      } else {
        CutLogGivesWholeFrames(w, fs[1..], n - m);
        CutAfterFrame(w, fs[0], rest, n);
        TakeOneMore(fs, WholeFrames(w, fs[1..], n - m));
      }
    }
  }

  lemma ShortOfFrame(w: nat, f: Frame, rest: seq<byte>, n: nat)
    requires IsWidth(w) && f.Fit(w) && n < |Bytes(w, f)|
    ensures First(w, (Bytes(w, f) + rest)[..n]).None?
  {
    var log := Bytes(w, f) + rest;
    SplitHeader(w, f, rest);
    SignedRoundTrip(|f.payload|, INT32);
    if n >= 8 + w {
      assert log[..n][4 + w..8 + w] == log[4 + w..8 + w];
    }
  }

  // ---- writes --------------------------------------------------------------------------------------------

  const SEPARATOR: seq<byte> := [58, 32]

  /** One call of a tunnel's `Write`, at the time of the clock. */
  datatype Call = Call(host: seq<byte>, data: seq<byte>, seconds: int, micros: int)

  function Payload(c: Call): seq<byte> {
    c.host + SEPARATOR + c.data
  }

  /** What a reader of the log can see of a call: times wrap in their fields. */
  function FrameOf(w: nat, c: Call): Frame {
    Frame(Signed(LittleEndian(c.seconds, INT32)), Signed(LittleEndian(c.micros, w)), Payload(c))
  }

  function FramesOf(w: nat, cs: seq<Call>): (fs: seq<Frame>)
    ensures |fs| == |cs| && forall i | 0 <= i < |cs| :: fs[i] == FrameOf(w, cs[i])
  {
    seq(|cs|, i requires 0 <= i < |cs| => FrameOf(w, cs[i]))
  }

  /** What a series of calls writes to an unbounded log. */
  function FramesLog(w: nat, cs: seq<Call>): seq<byte> {
    LogOf(w, FramesOf(w, cs))
  }

  /** A payload without the name of the host. */
  function StripHost(host: seq<byte>, payload: seq<byte>): seq<byte> {
    if |payload| < |host| + 2 then [] else payload[|host| + 2..]
  }

  /** The bytes of a call's frame, and when its times are seen as they were. */
  lemma FrameOfCall(w: nat, c: Call)
    ensures Bytes(w, FrameOf(w, c)) == Header(w, c.seconds, c.micros, |Payload(c)|) + c.host + SEPARATOR + c.data
    ensures FrameOf(w, c).Fit(w) <==> Fits(|Payload(c)|, INT32)
    ensures FrameOf(w, c).seconds == c.seconds <==> Fits(c.seconds, INT32)
    ensures FrameOf(w, c).micros == c.micros <==> Fits(c.micros, w)
  {
    SignedBytesRoundTrip(LittleEndian(c.seconds, INT32));
    SignedBytesRoundTrip(LittleEndian(c.micros, w));
    SignedRoundTrip(c.seconds, INT32);
    SignedRoundTrip(c.micros, w);
    RegroupFrame(Header(w, c.seconds, c.micros, |Payload(c)|), c.host, SEPARATOR, c.data);
  }

  /** The layout of a call's frame: three numbers, the name of the host, a colon, a space and the data. */
  lemma FrameLayout(w: nat, c: Call)
    ensures Bytes(w, FrameOf(w, c)) == LittleEndian(c.seconds, 4) + LittleEndian(c.micros, w)
                                       + LittleEndian(|c.host| + 2 + |c.data|, 4) + c.host + [58, 32] + c.data
  {
    FrameOfCall(w, c);
    assert |Payload(c)| == |c.host| + 2 + |c.data|;
  }

  lemma RegroupFrame(a: seq<byte>, b: seq<byte>, c: seq<byte>, d: seq<byte>)
    ensures a + (b + c + d) == a + b + c + d
  {
  }

  /** The log of any series of writes, through any number of tunnels, gives back each call's data, in order,
      exactly when each framed length fits its field. */
  lemma LogGivesData(w: nat, cs: seq<Call>)
    requires IsWidth(w)
    ensures Parse(w, FramesLog(w, cs)) == (FramesOf(w, cs), []) <==> forall c | c in cs :: Fits(|Payload(c)|, INT32)
    ensures forall i | 0 <= i < |cs| ::
              StripHost(cs[i].host, FramesOf(w, cs)[i].payload) == cs[i].data
  {
    var fs := FramesOf(w, cs);
    ParseInvertsLogOf(w, fs);
    forall i | 0 <= i < |cs|
      ensures fs[i] in fs && cs[i] in cs && (fs[i].Fit(w) <==> Fits(|Payload(cs[i])|, INT32))
    {
      FrameOfCall(w, cs[i]);
    }
  }

  lemma {:induction false} LogOfAppend(w: nat, fs: seq<Frame>, f: Frame)
    ensures LogOf(w, fs + [f]) == LogOf(w, fs) + Bytes(w, f)
    decreases |fs|
  {
    if fs == [] {
      assert fs + [f] == [f];
    } else {
      LogOfAppend(w, fs[1..], f);
      assert (fs + [f])[1..] == fs[1..] + [f];
    }
  }

  /** The log file. Once `room` is used up, further writes fail, possibly after a part. */
  class Writer {
    var log: seq<byte>
    var room: nat

    constructor (room: nat)
      ensures log == [] && this.room == room
    {
      this.log, this.room := [], room;
    }

    method Write(data: seq<byte>) returns (ok: bool)
      modifies this
      ensures log == old(log) + Cut(data, old(room))
      ensures room == old(room) - |Cut(data, old(room))|
      ensures ok == (|data| <= old(room))
    {
      ok := |data| <= room;
      var n := if ok then |data| else room;
      log, room := log + data[..n], room - n;
    }
  }

  /** The channel to a host; `open` is how many more bytes it takes before it fails. */
  class Channel {
    var sent: seq<byte>
    var open: nat

    method Write(data: seq<byte>) returns (n: nat, ok: bool)
      modifies this
      ensures n == if |data| <= old(open) then |data| else old(open)
      ensures ok == (n == |data|) && sent == old(sent) + data[..n] && open == old(open) - n
    {
      ok := |data| <= open;
      n := if ok then |data| else open;
      sent, open := sent + data[..n], open - n;
    }
  }

  /** One more call adds its frame. */
  lemma NextCall(w: nat, cs: seq<Call>, c: Call)
    ensures FramesLog(w, cs + [c]) == FramesLog(w, cs) + Bytes(w, FrameOf(w, c))
  {
    assert FramesOf(w, cs + [c]) == FramesOf(w, cs) + [FrameOf(w, c)];
    LogOfAppend(w, FramesOf(w, cs), FrameOf(w, c));
  }

  /** A log that ran out of room gives back the calls it holds whole, in order. */
  lemma FullLogGivesFirstCalls(w: nat, cs: seq<Call>, capacity: nat)
    requires IsWidth(w) && forall c | c in cs :: Fits(|Payload(c)|, INT32)
    ensures var log := Cut(FramesLog(w, cs), capacity);
            Parse(w, log).0 == FramesOf(w, cs)[..WholeFrames(w, FramesOf(w, cs), |log|)]
  {
    var fs := FramesOf(w, cs);
    forall f | f in fs ensures f.Fit(w) {
      var i :| 0 <= i < |fs| && f == fs[i];
      assert cs[i] in cs;
      FrameOfCall(w, cs[i]);
    }
    CutLogGivesWholeFrames(w, fs, |Cut(FramesLog(w, cs), capacity)|);
  }

  /** Three writes after a log, each as far as there is room, are one write of all three. */
  lemma CutThrice(log: seq<byte>, a: seq<byte>, b: seq<byte>, c: seq<byte>, room: nat)
    ensures var l := Cut(log, room);
            var x := Cut(a, room - |l|);
            var y := Cut(b, room - |l| - |x|);
            Cut(log + (a + b + c), room) == l + x + y + Cut(c, room - |l| - |x| - |y|)
  {
    CutTwice(log, a, room);
    CutTwice(log + a, b, room);
    CutTwice(log + a + b, c, room);
    assert log + (a + b + c) == log + a + b + c;
  }

  lemma LoggedNext(w: nat, calls: seq<Call>, c: Call, capacity: nat)
    ensures var log := Cut(FramesLog(w, calls), capacity);
            var header := Cut(Header(w, c.seconds, c.micros, |Payload(c)|), capacity - |log|);
            var name := Cut(c.host + SEPARATOR, capacity - |log| - |header|);
            var data := Cut(c.data, capacity - |log| - |header| - |name|);
            Cut(FramesLog(w, calls + [c]), capacity) == log + header + name + data
  {
    var header := Header(w, c.seconds, c.micros, |Payload(c)|);
    NextCall(w, calls, c);
    FrameOfCall(w, c);
    assert header + c.host + SEPARATOR + c.data == header + (c.host + SEPARATOR) + c.data;
    CutThrice(FramesLog(w, calls), header, c.host + SEPARATOR, c.data, capacity);
  }

  class Tunnel {
    const width: nat
    const host: seq<byte>
    const writer: Writer
    const channel: Channel

    constructor (width: nat, channel: Channel, writer: Writer, host: seq<byte>)
      ensures this.width == width && this.host == host && this.writer == writer && this.channel == channel
    {
      this.width, this.host, this.writer, this.channel := width, host, writer, channel;
    }

    method WriteHeader(seconds: int, micros: int, length: nat)
      modifies writer
      ensures writer.log == old(writer.log) + Cut(Header(width, seconds, micros, length), old(writer.room))
      ensures writer.room == old(writer.room) - |Cut(Header(width, seconds, micros, length), old(writer.room))|
    {
      var a, b, c := LittleEndian(seconds, INT32), LittleEndian(micros, width), LittleEndian(length, INT32);
      CutTwice(a, b, writer.room);
      CutTwice(a + b, c, writer.room);
      var _ := writer.Write(a);
      var _ := writer.Write(b);
      var _ := writer.Write(c);
    }

    /** The log holds what these calls write into `capacity` bytes. */
    ghost predicate Logged(calls: seq<Call>, capacity: nat)
      reads writer
    {
      writer.log == Cut(FramesLog(width, calls), capacity) && writer.room == capacity - |writer.log|
    }

    /** A frame goes to the log, as far as it has room, and the data to the channel, whose result is returned
        whether or not the log could be written. */
    method Write(data: seq<byte>, seconds: int, micros: int, ghost calls: seq<Call>, ghost capacity: nat)
      returns (n: nat, ok: bool)
      requires Logged(calls, capacity)
      modifies writer, channel
      ensures Logged(calls + [Call(host, data, seconds, micros)], capacity)
      ensures n == if |data| <= old(channel.open) then |data| else old(channel.open)
      ensures ok == (n == |data|)
      ensures channel.sent == old(channel.sent) + data[..n] && channel.open == old(channel.open) - n
    {
      ghost var c := Call(host, data, seconds, micros);
      LoggedNext(width, calls, c, capacity);
      var name := host + SEPARATOR;
      assert |Payload(c)| == |data| + |name|;
      WriteHeader(seconds, micros, |data| + |name|);
      var _ := writer.Write(name);
      var _ := writer.Write(data);
      assert writer.log == Cut(FramesLog(width, calls + [c]), capacity);
      n, ok := channel.Write(data);
    }
  }
}
