/**
 The receive side of the frame protocol as pure functions, the specification
 the ingestor's receive loop (`ReadWebcamOverIP.run`) is proved against.

 A connected socket is modelled by the results its successive
 `recv(4096)` calls produce: a chunk of bytes (an empty chunk is the empty
 read of a socket whose peer has closed) or an exception. A socket whose script is used
 up times out (the ingestor sets a 5 second timeout), which also raises.
 */
module Receive {
  import opened Common
  import opened Framing

  /** The outcome of one `clientsocket.recv(4096)` call. */
  datatype Recv = Chunk(bytes: seq<byte>) | Raised

  /** More than this many consecutive empty reads while waiting for a
      size prefix tear the connection down. */
  const EmptyLimit: nat := 10

  /** No call raises. */
  predicate NoRaised(script: seq<Recv>)
  {
    forall i :: 0 <= i < |script| ==> script[i].Chunk?
  }

  function BytesOf(r: Recv): seq<byte>
  {
    if r.Chunk? then r.bytes else []
  }

  /** All bytes the script delivers, in order. */
  function Flat(script: seq<Recv>): seq<byte>
  {
    if script == [] then [] else BytesOf(script[0]) + Flat(script[1..])
  }

  /** The number of empty reads the script starts with. */
  function LeadingEmpties(script: seq<Recv>): nat
  {
    if script != [] && script[0] == Chunk([]) then 1 + LeadingEmpties(script[1..]) else 0
  }

  /** Every `recv` returns at least one byte: the peer neither fails nor closes. */
  predicate Clean(script: seq<Recv>)
  {
    forall i :: 0 <= i < |script| ==> script[i].Chunk? && script[i].bytes != []
  }

  /** Nowhere does the script hold more than EmptyLimit empty reads in a row. */
  predicate NoSilence(script: seq<Recv>)
  {
    forall i :: 0 <= i < |script| ==> LeadingEmpties(script[i..]) <= EmptyLimit
  }

  ghost predicate IsPrefix<T>(a: seq<T>, b: seq<T>)
  {
    |a| <= |b| && a == b[..|a|]
  }

  ghost predicate IsSuffix<T>(a: seq<T>, b: seq<T>)
  {
    |a| <= |b| && a == b[|b| - |a|..]
  }

  // ---------------------------------------------------------------------------
  // The three phases of one frame: wait for the prefix, wait for the payload, slice.

  /** How the wait for a size prefix ends. */
  datatype HeaderWait =
    | Ready(data: seq<byte>, rest: seq<Recv>) // the buffer holds at least w bytes
    | GaveUp                                  // the empty-read limit was passed: teardown
    | Failed                                  // a `recv` raised

  /**
   `while len(data) < payload_size` (streamHandler.py lines 90-98), entered with
   `emptyResponses` equal to `empties`.
   */
  function AwaitHeader(w: nat, data: seq<byte>, script: seq<Recv>, empties: nat): (r: HeaderWait)
    ensures r.Ready? ==> |r.data| >= w
    decreases |script|
  {
    if |data| >= w then Ready(data, script)
    else if script == [] then Failed
    else match script[0]
      case Raised => Failed
      case Chunk(b) =>
        if b == [] then
          if empties + 1 > EmptyLimit then GaveUp
          else AwaitHeader(w, data, script[1..], empties + 1)
        else AwaitHeader(w, data + b, script[1..], 0)
  }

  /** How the wait for a payload ends. */
  datatype BodyWait =
    | Complete(data: seq<byte>, rest: seq<Recv>) // the buffer holds at least n bytes
    | Broken                                     // a `recv` raised
    | Stuck                                      // the peer closed: the loop never exits

  /**
   `while len(data) < msg_size: data += recv(4096)` (lines 107-108). The loop
   has no empty-read guard: once the peer has closed, every `recv` returns
   `b''`, the buffer never grows and the loop spins for ever.
   */
  function AwaitBody(n: nat, data: seq<byte>, script: seq<Recv>): (r: BodyWait)
    ensures r.Complete? ==> |r.data| >= n
    decreases |script|
  {
    if |data| >= n then Complete(data, script)
    else if script == [] then Broken
    else match script[0]
      case Raised => Broken
      case Chunk(b) => if b == [] then Stuck else AwaitBody(n, data + b, script[1..])
  }

  /** How a connection ends: closed by `teardown`, dropped by the `except`
      clause, or never, because the payload wait spins on a closed socket. */
  datatype End = TornDown | Dropped | Hung

  /** One pass of the frame loop: a frame, or the end of the connection. */
  datatype Step =
    | Frame(header: seq<byte>, payload: seq<byte>, data: seq<byte>, rest: seq<Recv>)
    | Halt(end: End)

  /**
   One pass of the inner `while self.running` loop up to the decode (lines 89-111):
   the counter starts at zero, the prefix is sliced off, then `msg_size` bytes.
   On a frame, the buffer and the unread script together hold exactly what
   they held before, minus the w prefix bytes and the payload.
   */
  function NextFrame(w: nat, order: ByteOrder, data: seq<byte>, script: seq<Recv>): (r: Step)
    requires w > 0
    ensures r.Frame? ==> |r.header| == w && DecodeSize(r.header, order) == |r.payload|
  {
    match AwaitHeader(w, data, script, 0)
    case GaveUp => Halt(TornDown)
    case Failed => Halt(Dropped)
    case Ready(d, s) =>
      var n := DecodeSize(d[..w], order);
      match AwaitBody(n, d[w..], s)
      case Broken => Halt(Dropped)
      case Stuck => Halt(Hung)
      case Complete(d2, s2) => Frame(d[..w], d2[..n], d2[n..], s2)
  }

  /** The payloads a connection decodes, in order, and how it ends. */
  datatype Trace = Trace(payloads: seq<seq<byte>>, end: End)

  /**
   The whole `try` block of `run` (lines 87-115) on one connection, starting
   with buffer `data`: frames until the connection ends. `unpickle` stands for
   `pickle.loads`, None meaning it raised, which the `except` clause catches,
   so every payload a session reports is one `pickle.loads` accepted.
   */
  function Session(w: nat, order: ByteOrder, unpickle: seq<byte> -> Option<(nat, nat)>,
                   data: seq<byte>, script: seq<Recv>): (t: Trace)
    requires w > 0
    ensures forall i :: 0 <= i < |t.payloads| ==> unpickle(t.payloads[i]).Some?
    decreases |data| + |Flat(script)|
  {
    NextFrameShrinks(w, order, data, script);
    match NextFrame(w, order, data, script)
    case Halt(e) => Trace([], e)
    case Frame(_, p, d, s) =>
      if unpickle(p).None? then Trace([], Dropped)
      else
        var t := Session(w, order, unpickle, d, s);
        Trace([p] + t.payloads, t.end)
  }

  // ---------------------------------------------------------------------------
  // Sequence facts.

  /** Splitting the buffer at the prefix and then at the payload loses no byte. */
  lemma Regroup(all: seq<byte>, d: seq<byte>, fs: seq<byte>, d2: seq<byte>, fs2: seq<byte>, w: nat, n: nat)
    requires all == d + fs && |d| >= w && d[w..] + fs == d2 + fs2 && |d2| >= n
    ensures all == d[..w] + d2[..n] + (d2[n..] + fs2)
  {
    calc {
      all;
      d + fs;
      { assert d == d[..w] + d[w..]; }
      d[..w] + (d[w..] + fs);
      d[..w] + (d2 + fs2);
      { assert d2 == d2[..n] + d2[n..]; }
      d[..w] + d2[..n] + (d2[n..] + fs2);
    }
  }

  /** Waiting for a prefix only moves bytes from the socket into the buffer. */
  lemma {:induction false} AwaitHeaderKeepsBytes(w: nat, data: seq<byte>, script: seq<Recv>, k: nat)
    ensures var r := AwaitHeader(w, data, script, k);
      r.Ready? ==> data + Flat(script) == r.data + Flat(r.rest) && IsSuffix(r.rest, script)
    decreases |script|
  {
    if |data| >= w {
      assert script[|script| - |script|..] == script;
    } else if script != [] && script[0].Chunk? {
      var b := script[0].bytes;
      var rest := script[1..];
      assert Flat(script) == b + Flat(rest);
      assert IsSuffix(rest, script);
      if b == [] {
        assert Flat(script) == Flat(rest);
        if k + 1 <= EmptyLimit {
          assert AwaitHeader(w, data, script, k) == AwaitHeader(w, data, rest, k + 1);
          AwaitHeaderKeepsBytes(w, data, rest, k + 1);
          var r := AwaitHeader(w, data, rest, k + 1);
          if r.Ready? {
            SuffixOfSuffix(r.rest, rest, script);
          }
        }
      } else {
        assert AwaitHeader(w, data, script, k) == AwaitHeader(w, data + b, rest, 0);
        AwaitHeaderKeepsBytes(w, data + b, rest, 0);
        var r := AwaitHeader(w, data + b, rest, 0);
        assert data + Flat(script) == (data + b) + Flat(rest);
        if r.Ready? {
          SuffixOfSuffix(r.rest, rest, script);
        }
      }
    }
  }

  /** Waiting for a payload only moves bytes from the socket into the buffer. */
  lemma {:induction false} AwaitBodyKeepsBytes(n: nat, data: seq<byte>, script: seq<Recv>)
    ensures var r := AwaitBody(n, data, script);
      r.Complete? ==> data + Flat(script) == r.data + Flat(r.rest) && IsSuffix(r.rest, script)
    decreases |script|
  {
    if |data| < n && script != [] && script[0].Chunk? && script[0].bytes != [] {
      var b := script[0].bytes;
      assert AwaitBody(n, data, script) == AwaitBody(n, data + b, script[1..]);
      AwaitBodyKeepsBytes(n, data + b, script[1..]);
      assert data + Flat(script) == (data + b) + Flat(script[1..]);
      assert IsSuffix(script[1..], script);
      var r := AwaitBody(n, data + b, script[1..]);
      if r.Complete? {
        SuffixOfSuffix(r.rest, script[1..], script);
      }
    }
  }

  /**
   On a frame, the buffer and the unread script together hold exactly what
   they held before, minus the w prefix bytes and the payload; the bytes come
   from the same socket, so the unread script is a suffix of the old one.
   */
  lemma NextFrameKeepsBytes(w: nat, order: ByteOrder, data: seq<byte>, script: seq<Recv>)
    requires w > 0
    ensures var r := NextFrame(w, order, data, script);
      r.Frame? ==> data + Flat(script) == r.header + r.payload + (r.data + Flat(r.rest)) && IsSuffix(r.rest, script)
  {
    AwaitHeaderKeepsBytes(w, data, script, 0);
    var hw := AwaitHeader(w, data, script, 0);
    if hw.Ready? {
      var d, s := hw.data, hw.rest;
      var n := DecodeSize(d[..w], order);
      AwaitBodyKeepsBytes(n, d[w..], s);
      var bw := AwaitBody(n, d[w..], s);
      if bw.Complete? {
        var d2, s2 := bw.data, bw.rest;
        Regroup(data + Flat(script), d, Flat(s), d2, Flat(s2), w, n);
        SuffixOfSuffix(s2, s, script);
      }
    }
  }

  /** Each frame takes at least the w prefix bytes out of the buffer and the socket. */
  lemma NextFrameShrinks(w: nat, order: ByteOrder, data: seq<byte>, script: seq<Recv>)
    requires w > 0
    ensures var r := NextFrame(w, order, data, script);
      r.Frame? ==> |r.data| + |Flat(r.rest)| + w <= |data| + |Flat(script)|
  {
    NextFrameKeepsBytes(w, order, data, script);
  }

  lemma PrefixCut<T>(u: seq<T>, v: seq<T>, x: seq<T>, y: seq<T>)
    requires IsPrefix(u + v, x + y) && |u| == |x|
    ensures u == x && IsPrefix(v, y)
  {
    assert u == (u + v)[..|u|] == (x + y)[..|x|] == x;
    assert v == (u + v)[|u|..] == (x + y)[|x|..|u + v|] == y[..|v|];
  }

  /** A frame read from the start of a producer's stream is the frame the producer packed. */
  lemma MatchFrame(w: nat, order: ByteOrder, h: seq<byte>, q: seq<byte>, after: seq<byte>,
                   all: seq<byte>, p: seq<byte>, tail: seq<byte>)
    requires |h| == w && DecodeSize(h, order) == |q| && Pack(w, order, p).Some?
    requires all == h + q + after && IsPrefix(all, Pack(w, order, p).value + tail)
    ensures q == p && IsPrefix(after, tail)
  {
    var f := Pack(w, order, p).value;
    PackShape(w, order, p);
    assert f == f[..w] + p;
    assert all == h + (q + after);
    assert f + tail == f[..w] + (p + tail);
    PrefixCut(h, q + after, f[..w], p + tail);
    assert |q| == |p|;
    PrefixCut(q, after, p, tail);
  }

  /** The frame read from a buffer and script holding the start of a producer's
      stream is the producer's first payload, and what is left continues the stream. */
  lemma NextFrameFromStream(w: nat, order: ByteOrder, data: seq<byte>, script: seq<Recv>,
                            p: seq<byte>, tail: seq<byte>)
    requires w > 0 && Pack(w, order, p).Some?
    requires IsPrefix(data + Flat(script), Pack(w, order, p).value + tail)
    ensures var r := NextFrame(w, order, data, script);
      r.Frame? ==> r.payload == p && IsPrefix(r.data + Flat(r.rest), tail)
  {
    NextFrameKeepsBytes(w, order, data, script);
    var r := NextFrame(w, order, data, script);
    if r.Frame? {
      var after := r.data + Flat(r.rest);
      assert data + Flat(script) == r.header + r.payload + after;
      MatchFrame(w, order, r.header, r.payload, after, data + Flat(script), p, tail);
    }
  }

  lemma PrefixCons<T>(x: T, a: seq<T>, b: seq<T>)
    requires IsPrefix(a, b)
    ensures IsPrefix([x] + a, [x] + b)
  {
    assert ([x] + b)[..1 + |a|] == [x] + b[..|a|];
  }

  lemma SuffixOfSuffix<T>(a: seq<T>, b: seq<T>, c: seq<T>)
    requires IsSuffix(a, b) && IsSuffix(b, c)
    ensures IsSuffix(a, c)
  {
    assert c[|c| - |b|..][|b| - |a|..] == c[|c| - |a|..];
  }

  lemma NoRaisedSuffix(a: seq<Recv>, b: seq<Recv>)
    requires IsSuffix(a, b) && NoRaised(b)
    ensures NoRaised(a)
  {
    forall i | 0 <= i < |a| ensures a[i].Chunk? {
      assert a[i] == b[|b| - |a| + i];
    }
  }

  lemma NoSilenceSuffix(a: seq<Recv>, b: seq<Recv>)
    requires IsSuffix(a, b) && NoSilence(b)
    ensures NoSilence(a)
  {
    forall i | 0 <= i < |a| ensures LeadingEmpties(a[i..]) <= EmptyLimit {
      assert a[i..] == b[|b| - |a| + i..];
    }
  }

  lemma CleanSuffix(a: seq<Recv>, b: seq<Recv>)
    requires IsSuffix(a, b) && Clean(b)
    ensures Clean(a)
  {
    forall i | 0 <= i < |a| ensures a[i].Chunk? && a[i].bytes != [] {
      assert a[i] == b[|b| - |a| + i];
    }
  }

  /** A clean script neither raises nor falls silent. */
  lemma CleanIsQuiet(script: seq<Recv>)
    requires Clean(script)
    ensures NoRaised(script) && NoSilence(script)
  {
    forall i | 0 <= i < |script| ensures LeadingEmpties(script[i..]) <= EmptyLimit {
      assert script[i..][0] == script[i];
    }
  }

  /** A script with no long silence starts with at most EmptyLimit empty reads. */
  lemma LeadingWithinLimit(script: seq<Recv>)
    requires NoSilence(script)
    ensures LeadingEmpties(script) <= EmptyLimit
  {
    if script != [] {
      assert script[0..] == script;
    }
  }

  // ---------------------------------------------------------------------------
  // The frame a buffer already holds, and the framing round trip.

  /** When the buffer already holds a whole frame, no `recv` is made: the frame is
      sliced off and exactly `payload_size + msg_size` bytes leave the buffer. */
  lemma BufferedFrame(w: nat, order: ByteOrder, data: seq<byte>, script: seq<Recv>)
    requires w > 0 && |data| >= w && |data| >= w + DecodeSize(data[..w], order)
    ensures var n := DecodeSize(data[..w], order);
      NextFrame(w, order, data, script) == Frame(data[..w], data[w..w + n], data[w + n..], script)
  {
    var n := DecodeSize(data[..w], order);
    assert AwaitHeader(w, data, script, 0) == Ready(data, script);
    assert AwaitBody(n, data[w..], script) == Complete(data[w..], script);
    assert data[w..][..n] == data[w..w + n];
    assert data[w..][n..] == data[w + n..];
  }

  /**
   Framing round trip: a buffer holding what the relay writes for payload p,
   followed by any leftover bytes, yields exactly p as the frame and keeps the
   leftover bytes for the next frame.
   */
  lemma FrameRoundTrip(w: nat, order: ByteOrder, p: seq<byte>, leftover: seq<byte>, script: seq<Recv>)
    requires w > 0 && Pack(w, order, p).Some?
    ensures var f := Pack(w, order, p).value;
      NextFrame(w, order, f + leftover, script) == Frame(f[..w], p, leftover, script)
  {
    var f := Pack(w, order, p).value;
    PackShape(w, order, p);
    var data := f + leftover;
    assert data[..w] == f[..w];
    BufferedFrame(w, order, data, script);
    assert data[w..w + |p|] == p;
    assert data[w + |p|..] == leftover;
  }

  // ---------------------------------------------------------------------------
  // The empty-read counter.

  lemma {:induction false} GiveUpAfterLimit(w: nat, data: seq<byte>, script: seq<Recv>, k: nat)
    requires |data| < w && k <= EmptyLimit && k + LeadingEmpties(script) > EmptyLimit
    ensures AwaitHeader(w, data, script, k) == GaveUp
    decreases |script|
  {
    assert LeadingEmpties(script) > 0;
    assert script != [] && script[0] == Chunk([]);
    if k + 1 <= EmptyLimit {
      assert LeadingEmpties(script[1..]) == LeadingEmpties(script) - 1;
      GiveUpAfterLimit(w, data, script[1..], k + 1);
      assert AwaitHeader(w, data, script, k) == AwaitHeader(w, data, script[1..], k + 1);
    }
  }

  /** Eleven empty reads while the prefix is incomplete tear the connection down. */
  lemma SilenceTearsDown(w: nat, order: ByteOrder, data: seq<byte>, script: seq<Recv>)
    requires w > 0 && |data| < w && LeadingEmpties(script) > EmptyLimit
    ensures NextFrame(w, order, data, script) == Halt(TornDown)
  {
    GiveUpAfterLimit(w, data, script, 0);
  }

  lemma {:induction false} GaveUpOnlyAfterSilence(w: nat, data: seq<byte>, script: seq<Recv>, k: nat)
    requires AwaitHeader(w, data, script, k) == GaveUp
    ensures exists i :: 0 <= i < |script| && (if i == 0 then k else 0) + LeadingEmpties(script[i..]) > EmptyLimit
    decreases |script|
  {
    assert script[0].Chunk?;
    assert script[0..] == script;
    var b := script[0].bytes;
    if b == [] && k + 1 > EmptyLimit {
      assert k + LeadingEmpties(script[0..]) > EmptyLimit;
    } else {
      var k' := if b == [] then k + 1 else 0;
      var data' := if b == [] then data else data + b;
      GaveUpOnlyAfterSilence(w, data', script[1..], k');
      var j :| 0 <= j < |script[1..]| && (if j == 0 then k' else 0) + LeadingEmpties(script[1..][j..]) > EmptyLimit;
      assert script[1..][j..] == script[j + 1..];
      if j == 0 && b == [] {
        assert k + LeadingEmpties(script[0..]) > EmptyLimit;
      } else {
        assert 0 + LeadingEmpties(script[j + 1..]) > EmptyLimit;
      }
    }
  }

  /** Conversely, a teardown happens only where the socket produced more than
      EmptyLimit consecutive empty reads. */
  lemma TornDownNeedsSilence(w: nat, order: ByteOrder, data: seq<byte>, script: seq<Recv>)
    requires w > 0 && NextFrame(w, order, data, script) == Halt(TornDown)
    ensures !NoSilence(script)
  {
    GaveUpOnlyAfterSilence(w, data, script, 0);
  }

  // ---------------------------------------------------------------------------
  // A producer that writes whole frames.

  lemma {:induction false} HeaderArrives(w: nat, data: seq<byte>, script: seq<Recv>, k: nat)
    requires NoRaised(script) && NoSilence(script) && k + LeadingEmpties(script) <= EmptyLimit
    requires |data| + |Flat(script)| >= w
    ensures AwaitHeader(w, data, script, k).Ready?
    decreases |script|
  {
    if |data| < w {
      assert script[0].Chunk?;
      var b := script[0].bytes;
      assert IsSuffix(script[1..], script);
      NoRaisedSuffix(script[1..], script);
      NoSilenceSuffix(script[1..], script);
      LeadingWithinLimit(script[1..]);
      if b == [] {
        HeaderArrives(w, data, script[1..], k + 1);
      } else {
        HeaderArrives(w, data + b, script[1..], 0);
      }
    }
  }

  lemma {:induction false} HeaderNeverArrives(w: nat, data: seq<byte>, script: seq<Recv>, k: nat)
    requires NoRaised(script) && NoSilence(script) && k + LeadingEmpties(script) <= EmptyLimit
    requires |data| + |Flat(script)| < w
    ensures AwaitHeader(w, data, script, k) == Failed
    decreases |script|
  {
    if script != [] {
      assert script[0].Chunk?;
      var b := script[0].bytes;
      assert IsSuffix(script[1..], script);
      NoRaisedSuffix(script[1..], script);
      NoSilenceSuffix(script[1..], script);
      LeadingWithinLimit(script[1..]);
      if b == [] {
        HeaderNeverArrives(w, data, script[1..], k + 1);
      } else {
        HeaderNeverArrives(w, data + b, script[1..], 0);
      }
    }
  }

  lemma {:induction false} BodyArrives(n: nat, data: seq<byte>, script: seq<Recv>)
    requires Clean(script) && |data| + |Flat(script)| >= n
    ensures AwaitBody(n, data, script).Complete?
    decreases |script|
  {
    if |data| < n {
      assert script[0].Chunk? && script[0].bytes != [];
      assert IsSuffix(script[1..], script);
      CleanSuffix(script[1..], script);
      BodyArrives(n, data + script[0].bytes, script[1..]);
    }
  }

  /** A peer that closes before the announced payload is complete (its last
      `recv` is empty) leaves the payload wait spinning. */
  lemma {:induction false} PeerCloseHangs(n: nat, data: seq<byte>, script: seq<Recv>)
    requires NoRaised(script) && |data| + |Flat(script)| < n
    requires script != [] && script[|script| - 1] == Chunk([])
    ensures AwaitBody(n, data, script) == Stuck
    decreases |script|
  {
    assert script[0].Chunk?;
    var b := script[0].bytes;
    if b != [] {
      assert |script| > 1;
      assert Flat(script) == b + Flat(script[1..]);
      assert IsSuffix(script[1..], script);
      NoRaisedSuffix(script[1..], script);
      PeerCloseHangs(n, data + b, script[1..]);
    }
  }

  /** Conversely, the payload wait spins only after an empty read. */
  lemma {:induction false} StuckNeedsEmptyRead(n: nat, data: seq<byte>, script: seq<Recv>)
    requires AwaitBody(n, data, script) == Stuck
    ensures exists i :: 0 <= i < |script| && script[i] == Chunk([])
    decreases |script|
  {
    if script[0] != Chunk([]) {
      StuckNeedsEmptyRead(n, data + script[0].bytes, script[1..]);
      var i :| 0 <= i < |script[1..]| && script[1..][i] == Chunk([]);
      assert script[i + 1] == Chunk([]);
    }
  }

  /** A buffer holding a whole size prefix and part of the payload it
      announces, followed by a peer that sends the rest only in part and then
      closes, never yields the frame: the ingestor hangs on that connection. */
  lemma NextFrameHangsOnClose(w: nat, order: ByteOrder, data: seq<byte>, script: seq<Recv>)
    requires w > 0 && |data| >= w && NoRaised(script)
    requires |data| - w + |Flat(script)| < DecodeSize(data[..w], order)
    requires script != [] && script[|script| - 1] == Chunk([])
    ensures NextFrame(w, order, data, script) == Halt(Hung)
  {
    assert AwaitHeader(w, data, script, 0) == Ready(data, script);
    PeerCloseHangs(DecodeSize(data[..w], order), data[w..], script);
  }

  /** Whatever the chunking, once the socket delivers a size prefix and as many
      bytes as it announces, with every `recv` returning data, the frame is received. */
  lemma NextFrameArrives(w: nat, order: ByteOrder, data: seq<byte>, script: seq<Recv>)
    requires w > 0 && Clean(script)
    requires |data + Flat(script)| >= w
    requires |data + Flat(script)| >= w + DecodeSize((data + Flat(script))[..w], order)
    ensures NextFrame(w, order, data, script).Frame?
  {
    CleanIsQuiet(script);
    LeadingWithinLimit(script);
    HeaderArrives(w, data, script, 0);
    AwaitHeaderKeepsBytes(w, data, script, 0);
    var hw := AwaitHeader(w, data, script, 0);
    var d, s := hw.data, hw.rest;
    assert d[..w] == (d + Flat(s))[..w];
    CleanSuffix(s, script);
    BodyArrives(DecodeSize(d[..w], order), d[w..], s);
  }

  /** A frame the producer packed, arriving in any chunking with every `recv`
      returning data, is received whole, and what follows it is kept. */
  lemma NextFrameDelivers(w: nat, order: ByteOrder, data: seq<byte>, script: seq<Recv>,
                          p: seq<byte>, following: seq<byte>)
    requires w > 0 && Clean(script)
    requires Pack(w, order, p).Some? && data + Flat(script) == Pack(w, order, p).value + following
    ensures NextFrame(w, order, data, script).Frame?
    ensures NextFrame(w, order, data, script).payload == p
    ensures NextFrame(w, order, data, script).data + Flat(NextFrame(w, order, data, script).rest) == following
  {
    var f := Pack(w, order, p).value;
    PackShape(w, order, p);
    var all := data + Flat(script);
    assert all[..w] == f[..w];
    NextFrameArrives(w, order, data, script);
    NextFrameKeepsBytes(w, order, data, script);
    NextFrameFromStream(w, order, data, script, p, following);
    var r := NextFrame(w, order, data, script);
    var after := r.data + Flat(r.rest);
    assert |all| == w + |p| + |after|;
    assert |all| == w + |p| + |following|;
    assert following[..|following|] == following;
  }

  /** One frame of a session: decoded and followed by the rest of the session,
      or the session ends here with no further payload. */
  lemma SessionUnfold(w: nat, order: ByteOrder, unpickle: seq<byte> -> Option<(nat, nat)>,
                      data: seq<byte>, script: seq<Recv>)
    requires w > 0
    ensures var r := NextFrame(w, order, data, script);
      var t := Session(w, order, unpickle, data, script);
      if r.Frame? && unpickle(r.payload).Some? then
        var u := Session(w, order, unpickle, r.data, r.rest);
        t.payloads == [r.payload] + u.payloads && t.end == u.end
      else
        t.payloads == [] && t.end == (if r.Halt? then r.end else Dropped)
  {
  }

  /** A non-empty packed stream starts with its first frame. */
  lemma PackAllCons(w: nat, order: ByteOrder, payloads: seq<seq<byte>>)
    requires PackAll(w, order, payloads).Some? && payloads != []
    ensures Pack(w, order, payloads[0]).Some? && PackAll(w, order, payloads[1..]).Some?
    ensures PackAll(w, order, payloads).value == Pack(w, order, payloads[0]).value + PackAll(w, order, payloads[1..]).value
    ensures payloads == [payloads[0]] + payloads[1..]
  {
    var first, rest := Pack(w, order, payloads[0]), PackAll(w, order, payloads[1..]);
    assert PackAll(w, order, payloads) == if first.Some? && rest.Some? then Some(first.value + rest.value) else None;
    assert payloads == [payloads[0]] + payloads[1..];
  }

  /**
   Every frame an ingestor decodes is one the producer sent, in order: when
   the bytes delivered on a connection are a prefix of the producer's stream
   (the connection may end anywhere), the decoded payloads are a prefix of the
   payloads it packed.
   */
  lemma {:induction false} SessionFramesWereSent(w: nat, order: ByteOrder, unpickle: seq<byte> -> Option<(nat, nat)>,
                                                 data: seq<byte>, script: seq<Recv>,
                                                 payloads: seq<seq<byte>>, stream: seq<byte>)
    requires w > 0 && PackAll(w, order, payloads) == Some(stream)
    requires IsPrefix(data + Flat(script), stream)
    ensures IsPrefix(Session(w, order, unpickle, data, script).payloads, payloads)
    decreases |data| + |Flat(script)|
  {
    NextFrameKeepsBytes(w, order, data, script);
    SessionUnfold(w, order, unpickle, data, script);
    var r := NextFrame(w, order, data, script);
    if r.Frame? && unpickle(r.payload).Some? {
      assert |stream| >= w;
      assert payloads != [];
      PackAllCons(w, order, payloads);
      var tail := PackAll(w, order, payloads[1..]).value;
      NextFrameFromStream(w, order, data, script, payloads[0], tail);
      SessionFramesWereSent(w, order, unpickle, r.data, r.rest, payloads[1..], tail);
      PrefixCons(payloads[0], Session(w, order, unpickle, r.data, r.rest).payloads, payloads[1..]);
    }
  }

  /**
   A connection that delivers a producer's whole stream, in any chunking, with
   every `recv` returning data, decodes every frame in order; it then ends
   when the next `recv` times out.
   */
  lemma {:induction false} SessionDeliversAll(w: nat, order: ByteOrder, unpickle: seq<byte> -> Option<(nat, nat)>,
                                              data: seq<byte>, script: seq<Recv>, payloads: seq<seq<byte>>)
    requires w > 0 && PackAll(w, order, payloads) == Some(data + Flat(script))
    requires Clean(script)
    requires forall i :: 0 <= i < |payloads| ==> unpickle(payloads[i]).Some?
    ensures Session(w, order, unpickle, data, script) == Trace(payloads, Dropped)
    decreases |payloads|
  {
    if payloads == [] {
      CleanIsQuiet(script);
      LeadingWithinLimit(script);
      HeaderNeverArrives(w, data, script, 0);
    } else {
      PackAllCons(w, order, payloads);
      var tail := PackAll(w, order, payloads[1..]).value;
      NextFrameDelivers(w, order, data, script, payloads[0], tail);
      NextFrameKeepsBytes(w, order, data, script);
      SessionUnfold(w, order, unpickle, data, script);
      var r := NextFrame(w, order, data, script);
      CleanSuffix(r.rest, script);
      assert unpickle(payloads[0]).Some?;
      assert forall i :: 0 <= i < |payloads[1..]| ==> unpickle(payloads[1..][i]).Some? by {
        forall i | 0 <= i < |payloads[1..]| ensures unpickle(payloads[1..][i]).Some? {
          assert payloads[1..][i] == payloads[i + 1];
        }
      }
      SessionDeliversAll(w, order, unpickle, r.data, r.rest, payloads[1..]);
    }
  }

  /** A connection is torn down only after more than EmptyLimit consecutive empty reads. */
  lemma {:induction false} SessionTornDownNeedsSilence(w: nat, order: ByteOrder, unpickle: seq<byte> -> Option<(nat, nat)>,
                                                       data: seq<byte>, script: seq<Recv>)
    requires w > 0 && Session(w, order, unpickle, data, script).end == TornDown
    ensures !NoSilence(script)
    decreases |data| + |Flat(script)|
  {
    NextFrameKeepsBytes(w, order, data, script);
    var r := NextFrame(w, order, data, script);
    if r.Halt? {
      TornDownNeedsSilence(w, order, data, script);
    } else {
      SessionTornDownNeedsSilence(w, order, unpickle, r.data, r.rest);
      if NoSilence(script) {
        NoSilenceSuffix(r.rest, script);
      }
    }
  }

  lemma SuffixHolds<T>(a: seq<T>, b: seq<T>, x: T)
    requires IsSuffix(a, b) && exists i :: 0 <= i < |a| && a[i] == x
    ensures exists i :: 0 <= i < |b| && b[i] == x
  {
    var i :| 0 <= i < |a| && a[i] == x;
    assert b[|b| - |a| + i] == x;
  }

  /** A frame read hangs exactly where the payload wait is stuck. */
  lemma HangIsStuck(w: nat, order: ByteOrder, data: seq<byte>, script: seq<Recv>)
    requires w > 0 && NextFrame(w, order, data, script) == Halt(Hung)
    ensures AwaitHeader(w, data, script, 0).Ready?
    ensures var hw := AwaitHeader(w, data, script, 0);
      AwaitBody(DecodeSize(hw.data[..w], order), hw.data[w..], hw.rest) == Stuck
  {
  }

  /** A frame read hangs only after an empty read. */
  lemma NextFrameHangNeedsEmptyRead(w: nat, order: ByteOrder, data: seq<byte>, script: seq<Recv>)
    requires w > 0 && NextFrame(w, order, data, script) == Halt(Hung)
    ensures exists i :: 0 <= i < |script| && script[i] == Chunk([])
  {
    HangIsStuck(w, order, data, script);
    AwaitHeaderKeepsBytes(w, data, script, 0);
    var hw := AwaitHeader(w, data, script, 0);
    StuckNeedsEmptyRead(DecodeSize(hw.data[..w], order), hw.data[w..], hw.rest);
    SuffixHolds(hw.rest, script, Chunk([]));
  }

  /** A connection hangs only where the peer has closed: a script whose every
      `recv` returns data never leaves the ingestor spinning. */
  lemma {:induction false} SessionHangNeedsEmptyRead(w: nat, order: ByteOrder, unpickle: seq<byte> -> Option<(nat, nat)>,
                                                     data: seq<byte>, script: seq<Recv>)
    requires w > 0 && Session(w, order, unpickle, data, script).end == Hung
    ensures exists i :: 0 <= i < |script| && script[i] == Chunk([])
    decreases |data| + |Flat(script)|
  {
    NextFrameKeepsBytes(w, order, data, script);
    var r := NextFrame(w, order, data, script);
    if r.Halt? {
      NextFrameHangNeedsEmptyRead(w, order, data, script);
    } else {
      SessionHangNeedsEmptyRead(w, order, unpickle, r.data, r.rest);
      SuffixHolds(r.rest, script, Chunk([]));
    }
  }
}
