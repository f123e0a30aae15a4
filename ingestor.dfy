/**
 The ingestor `ReadWebcamOverIP`: one thread per camera that keeps a TCP
 connection to the camera's server, reassembles length-prefixed frames from
 it and keeps the last decoded frame, or the "Stream Offline" image while it
 has no connection, for the compositor to read.

 The thread is modelled sequentially. A connection is the script of results
 its `recv` calls produce (see module Receive); `connect` is an attempt that
 either fails or yields such a script.
 */
module Ingestion {
  import opened Common
  import opened Framing
  import opened Images
  import opened Receive

  /** `self.clientsocket`: None, or a connected socket with what it has yet to deliver. */
  datatype Link = Closed | Connected(pending: seq<Recv>)

  /** The image `pickle.loads` produces from a payload: the payload's picture with
      the shape `unpickle` gives it, or None when `pickle.loads` raises. */
  function Unpickled(unpickle: seq<byte> -> Option<(nat, nat)>, p: seq<byte>): (r: Option<Image>)
    ensures r.Some? <==> unpickle(p).Some?
    ensures r.Some? ==> r.value.content == Decoded(p) && (r.value.height, r.value.width) == unpickle(p).value
  {
    match unpickle(p)
    case None => None
    case Some(shape) => Some(Image(Decoded(p), shape.0, shape.1))
  }

  /** The placeholder an ingestor shows while it has no connection: output_size[0]
      rows by output_size[1] columns (`zeros(self.output_size)`, lines 49-53). */
  function OfflineImage(outputSize: (nat, nat)): Image
  {
    Image(OfflineNotice, outputSize.0, outputSize.1)
  }

  /** What `imgToShow` holds after `img` and then every payload decoded in turn. */
  function LastShown(unpickle: seq<byte> -> Option<(nat, nat)>, img: Image, payloads: seq<seq<byte>>): Image
  {
    if payloads == [] then img
    else match Unpickled(unpickle, payloads[|payloads| - 1])
      case Some(shown) => shown
      case None => img
  }

  /** An image an ingestor can be showing: the offline image, or a frame decoded from its payload. */
  predicate Showable(unpickle: seq<byte> -> Option<(nat, nat)>, outputSize: (nat, nat), img: Image)
  {
    img == OfflineImage(outputSize) || (img.content.Decoded? && Unpickled(unpickle, img.content.payload) == Some(img))
  }

  /** The payloads an ingestor decodes, how each of its connections ends, and
      the image it shows at the end. */
  datatype Outcome = Outcome(payloads: seq<seq<byte>>, endings: seq<End>, image: Image)

  /**
   The outer `while self.running` loop of `run` (lines 81-118) with `running`
   true throughout, given the outcomes of the `connect` calls it makes, in
   order (None: `connect` raised), and `serve`, what serving a connected
   socket's script from an empty buffer (the `try` block) decodes and how it ends. A connected
   socket is served until the connection ends; with no socket the offline
   image is shown and the next connect is tried. A connection that hangs in
   the payload wait is the last thing that happens: the thread never returns
   to the outer loop and keeps showing the image it had. Otherwise the replay
   ends when there is no further attempt.
   */
  function Replay(serve: (seq<byte>, seq<Recv>) -> Trace, unpickle: seq<byte> -> Option<(nat, nat)>, outputSize: (nat, nat),
                  link: Link, img: Image, attempts: seq<Option<seq<Recv>>>): Outcome
    decreases |attempts|, if link.Connected? then 1 else 0
  {
    if link.Connected? then
      var t := serve([], link.pending);
      var shown := LastShown(unpickle, img, t.payloads);
      if t.end == Hung then Outcome(t.payloads, [Hung], shown)
      else
        var o := Replay(serve, unpickle, outputSize, Closed, shown, attempts);
        Outcome(t.payloads + o.payloads, [t.end] + o.endings, o.image)
    else if attempts == [] then Outcome([], [], OfflineImage(outputSize))
    else
      var next := if attempts[0].Some? then Connected(attempts[0].value) else Closed;
      Replay(serve, unpickle, outputSize, next, OfflineImage(outputSize), attempts[1..])
  }

  /** The scripts of the sockets `run` serves, in order: the one it holds, then
      each one a successful `connect` yields. */
  function Connections(link: Link, attempts: seq<Option<seq<Recv>>>): seq<seq<Recv>>
  {
    (if link.Connected? then [link.pending] else []) + Successes(attempts)
  }

  function Successes(attempts: seq<Option<seq<Recv>>>): seq<seq<Recv>>
  {
    if attempts == [] then []
    else (if attempts[0].Some? then [attempts[0].value] else []) + Successes(attempts[1..])
  }

  /** The connections `run` gets to serve: all of them, up to and including
      the first that hangs. */
  function UpToHang(serve: (seq<byte>, seq<Recv>) -> Trace, scripts: seq<seq<Recv>>): (served: seq<seq<Recv>>)
    ensures |served| <= |scripts| && served == scripts[..|served|]
    ensures forall k :: 0 <= k < |served| - 1 ==> serve([], served[k]).end != Hung
    ensures |served| < |scripts| ==> served != [] && serve([], served[|served| - 1]).end == Hung
  {
    if scripts == [] then []
    else if serve([], scripts[0]).end == Hung then [scripts[0]]
    else [scripts[0]] + UpToHang(serve, scripts[1..])
  }

  /** Every payload decoded when each script is served to its end, one after another. */
  function AllPayloads(serve: (seq<byte>, seq<Recv>) -> Trace, scripts: seq<seq<Recv>>): seq<seq<byte>>
  {
    if scripts == [] then [] else serve([], scripts[0]).payloads + AllPayloads(serve, scripts[1..])
  }

  /** How each of these connections ends. */
  function AllEndings(serve: (seq<byte>, seq<Recv>) -> Trace, scripts: seq<seq<Recv>>): (ends: seq<End>)
    ensures |ends| == |scripts|
    ensures forall k :: 0 <= k < |scripts| ==> ends[k] == serve([], scripts[k]).end
  {
    if scripts == [] then [] else [serve([], scripts[0]).end] + AllEndings(serve, scripts[1..])
  }

  /** The outer loop serves every connection it gets, in order and each to its
      end, until one hangs: what it decodes is the concatenation of what each
      of those sessions decodes, and it records one ending per connection. */
  lemma {:induction false} ReplayServesEachConnection(serve: (seq<byte>, seq<Recv>) -> Trace,
                                                      unpickle: seq<byte> -> Option<(nat, nat)>,
                                                      outputSize: (nat, nat), link: Link, img: Image,
                                                      attempts: seq<Option<seq<Recv>>>)
    ensures var o := Replay(serve, unpickle, outputSize, link, img, attempts);
      o.payloads == AllPayloads(serve, UpToHang(serve, Connections(link, attempts)))
      && o.endings == AllEndings(serve, UpToHang(serve, Connections(link, attempts)))
    decreases |attempts|, if link.Connected? then 1 else 0
  {
    if link.Connected? {
      var t := serve([], link.pending);
      var cs := Connections(link, attempts);
      assert cs[0] == link.pending && cs[1..] == Connections(Closed, attempts);
      if t.end == Hung {
        assert UpToHang(serve, cs) == [link.pending];
        assert t.payloads + [] == t.payloads;
      } else {
        ReplayServesEachConnection(serve, unpickle, outputSize, Closed, LastShown(unpickle, img, t.payloads), attempts);
        assert UpToHang(serve, cs) == [cs[0]] + UpToHang(serve, cs[1..]);
        assert ([cs[0]] + UpToHang(serve, cs[1..]))[1..] == UpToHang(serve, cs[1..]);
      }
    } else if attempts != [] {
      var next := if attempts[0].Some? then Connected(attempts[0].value) else Closed;
      ReplayServesEachConnection(serve, unpickle, outputSize, next, OfflineImage(outputSize), attempts[1..]);
      assert Connections(link, attempts) == Connections(next, attempts[1..]);
    }
  }

  /** The outer loop of `run` is on track: `whole` is what has been decoded
      and how the connections ended so far, followed by the replay from the
      current socket, image and attempts; no connection has hung yet. */
  ghost predicate OnTrack(serve: (seq<byte>, seq<Recv>) -> Trace, unpickle: seq<byte> -> Option<(nat, nat)>,
                          outputSize: (nat, nat), whole: Outcome, payloads: seq<seq<byte>>, ends: seq<End>,
                          link: Link, img: Image, rest: seq<Option<seq<Recv>>>)
  {
    var o := Replay(serve, unpickle, outputSize, link, img, rest);
    whole == Outcome(payloads + o.payloads, ends + o.endings, o.image) && Hung !in ends
  }

  /** Serving the held socket keeps the loop on track, or, when the
      connection hangs, completes the outcome. */
  lemma ServedOnTrack(serve: (seq<byte>, seq<Recv>) -> Trace, unpickle: seq<byte> -> Option<(nat, nat)>,
                      outputSize: (nat, nat), whole: Outcome, payloads: seq<seq<byte>>, ends: seq<End>,
                      pending: seq<Recv>, img: Image, rest: seq<Option<seq<Recv>>>)
    requires OnTrack(serve, unpickle, outputSize, whole, payloads, ends, Connected(pending), img, rest)
    ensures var t := serve([], pending);
      var shown := LastShown(unpickle, img, t.payloads);
      && (t.end == Hung ==> whole == Outcome(payloads + t.payloads, ends + [Hung], shown) && Hung in ends + [Hung])
      && (t.end != Hung ==>
            OnTrack(serve, unpickle, outputSize, whole, payloads + t.payloads, ends + [t.end], Closed, shown, rest))
  {
    var t := serve([], pending);
    var shown := LastShown(unpickle, img, t.payloads);
    if t.end == Hung {
      assert (ends + [Hung])[|ends|] == Hung;
    } else {
      var after := Replay(serve, unpickle, outputSize, Closed, shown, rest);
      AppendAssoc(payloads, t.payloads, after.payloads);
      AppendAssoc(ends, [t.end], after.endings);
    }
  }

  /** Without a socket the loop shows the offline image and tries the next
      connect, or finds no attempt left and has its whole outcome. */
  lemma ResetOnTrack(serve: (seq<byte>, seq<Recv>) -> Trace, unpickle: seq<byte> -> Option<(nat, nat)>,
                     outputSize: (nat, nat), whole: Outcome, payloads: seq<seq<byte>>, ends: seq<End>,
                     img: Image, rest: seq<Option<seq<Recv>>>)
    requires OnTrack(serve, unpickle, outputSize, whole, payloads, ends, Closed, img, rest)
    ensures rest == [] ==> whole == Outcome(payloads, ends, OfflineImage(outputSize)) && Hung !in ends
    ensures rest != [] ==>
      OnTrack(serve, unpickle, outputSize, whole, payloads, ends,
              if rest[0].Some? then Connected(rest[0].value) else Closed, OfflineImage(outputSize), rest[1..])
  {
    assert payloads + [] == payloads && ends + [] == ends;
  }

  /** Without a successful connect nothing is decoded and no connection ends. */
  lemma {:induction false} NoConnectionNoFrames(serve: (seq<byte>, seq<Recv>) -> Trace, unpickle: seq<byte> -> Option<(nat, nat)>,
                             outputSize: (nat, nat), img: Image, attempts: seq<Option<seq<Recv>>>)
    requires forall k :: 0 <= k < |attempts| ==> attempts[k].None?
    ensures var o := Replay(serve, unpickle, outputSize, Closed, img, attempts);
      o == Outcome([], [], OfflineImage(outputSize))
  {
    if attempts != [] {
      NoConnectionNoFrames(serve, unpickle, outputSize, img, attempts[1..]);
    }
  }

  /**
   The outer loop ends showing the offline image unless a connection hangs,
   because it falls back to that image after every connection. A hang is the
   last thing that happens, and the ingestor then stays frozen on the image
   that connection left: the last frame decoded, the offline image, or, for
   the socket it already held, the image it started with.
   */
  lemma {:induction false} ReplayEndsOffline(serve: (seq<byte>, seq<Recv>) -> Trace,
                                             unpickle: seq<byte> -> Option<(nat, nat)>,
                                             outputSize: (nat, nat), link: Link, img: Image,
                                             attempts: seq<Option<seq<Recv>>>)
    ensures var o := Replay(serve, unpickle, outputSize, link, img, attempts);
      && (Hung !in o.endings ==> o.image == OfflineImage(outputSize))
      && (Hung in o.endings ==> o.endings[|o.endings| - 1] == Hung && Hung !in o.endings[..|o.endings| - 1])
      && (Hung in o.endings ==>
            (link.Connected? && o.image == img) || o.image == OfflineImage(outputSize)
            || (o.payloads != [] && Unpickled(unpickle, o.payloads[|o.payloads| - 1]) == Some(o.image)))
    decreases |attempts|, if link.Connected? then 1 else 0
  {
    var o := Replay(serve, unpickle, outputSize, link, img, attempts);
    if link.Connected? {
      var t := serve([], link.pending);
      var shown := LastShown(unpickle, img, t.payloads);
      if t.end == Hung {
        assert o == Outcome(t.payloads, [Hung], shown);
        assert o.endings[..0] == [];
      } else {
        ReplayEndsOffline(serve, unpickle, outputSize, Closed, shown, attempts);
        var o' := Replay(serve, unpickle, outputSize, Closed, shown, attempts);
        assert o == Outcome(t.payloads + o'.payloads, [t.end] + o'.endings, o'.image);
        if Hung in o.endings {
          assert Hung in o'.endings;
          assert o.endings[..|o.endings| - 1] == [t.end] + o'.endings[..|o'.endings| - 1];
          if o'.payloads != [] {
            assert o.payloads[|o.payloads| - 1] == o'.payloads[|o'.payloads| - 1];
          }
        }
      }
    } else if attempts != [] {
      var next := if attempts[0].Some? then Connected(attempts[0].value) else Closed;
      ReplayEndsOffline(serve, unpickle, outputSize, next, OfflineImage(outputSize), attempts[1..]);
    }
  }

  class Ingestor {
    const host: string
    const port: int
    /** (rows, columns) of the images this ingestor serves; the third, colour,
        dimension of `self.output_size` is not modelled. */
    const outputSize: (nat, nat)
    /** `struct.calcsize("L")` and the native byte order of the platform. */
    const headerWidth: nat
    const order: ByteOrder
    /** `pickle.loads` on a payload: the shape of the frame it yields, or None when it raises. */
    const unpickle: seq<byte> -> Option<(nat, nat)>
    const offlineStreamImg: Image
    /** What serving a connected socket's script from a buffer yields: Session
        with this ingestor's prefix format and decoder. */
    const sessionFrom: (seq<byte>, seq<Recv>) -> Trace

    var running: bool
    var link: Link
    var imgToShow: Image

    /** Every payload decoded so far, in order, and how each connection ended. */
    ghost var decoded: seq<seq<byte>>
    ghost var endings: seq<End>

    ghost predicate Valid()
      reads this
    {
      headerWidth > 0 && offlineStreamImg == OfflineImage(outputSize) && Showable(unpickle, outputSize, imgToShow)
      && (forall data, script {:trigger Session(headerWidth, order, unpickle, data, script)} ::
            sessionFrom(data, script) == Session(headerWidth, order, unpickle, data, script))
    }

    /** `__init__` (lines 41-55): running, no socket, showing the offline image. */
    constructor (outputSize: (nat, nat), ipPort: (string, int), headerWidth: nat, order: ByteOrder,
                 unpickle: seq<byte> -> Option<(nat, nat)>)
      requires headerWidth > 0
      ensures Valid()
      ensures this.host == ipPort.0 && this.port == ipPort.1 && this.outputSize == outputSize
      ensures this.headerWidth == headerWidth && this.order == order && this.unpickle == unpickle
      ensures running && link == Closed && imgToShow == OfflineImage(outputSize)
      ensures decoded == [] && endings == []
    {
      host := ipPort.0;
      port := ipPort.1;
      this.outputSize := outputSize;
      this.headerWidth := headerWidth;
      this.order := order;
      this.unpickle := unpickle;
      offlineStreamImg := OfflineImage(outputSize);
      sessionFrom := (data, script) => Session(headerWidth, order, unpickle, data, script);
      running := true;
      link := Closed;
      imgToShow := OfflineImage(outputSize);
      decoded := [];
      endings := [];
    }

    /**
     `read()` (lines 59-63): the current image when it already has the output
     shape; None otherwise, because the resize it then attempts is given the
     three-element `self.output_size` as its target size and OpenCV accepts
     only a (width, height) pair, so it raises. A valid ingestor therefore
     reads while it is offline, and after a decoded frame exactly when that
     frame was unpickled at the output size.
     */
    function Read(): (img: Option<Image>)
      reads this
      ensures img.Some? <==> imgToShow.height == outputSize.0 && imgToShow.width == outputSize.1
      ensures img.Some? ==> img.value == imgToShow
      ensures Valid() ==>
        (img.Some? <==> imgToShow == offlineStreamImg
                        || (imgToShow.content.Decoded? && unpickle(imgToShow.content.payload) == Some(outputSize)))
    {
      if imgToShow.height != outputSize.0 || imgToShow.width != outputSize.1 then None
      else Some(imgToShow)
    }

    /** `stop()` (line 65). */
    method Stop()
      modifies this`running
      ensures !running
    {
      running := false;
    }

    /** `setup()` (lines 67-75): the socket is replaced only when `connect` succeeds. */
    method Setup(attempt: Option<seq<Recv>>)
      modifies this`link
      ensures link == if attempt.Some? then Connected(attempt.value) else old(link)
    {
      if attempt.Some? {
        link := Connected(attempt.value);
      }
    }

    /** `teardown()` (lines 77-79): close the socket and forget it. */
    method Teardown()
      requires link.Connected?
      modifies this`link
      ensures link == Closed
    {
      link := Closed;
    }

    /** `clientsocket.recv(4096)`: the next scripted result; a used-up script times out. */
    method Receive() returns (r: Recv)
      requires link.Connected?
      modifies this`link
      ensures old(link.pending) == [] ==> r == Raised && link == old(link)
      ensures old(link.pending) != [] ==> r == old(link.pending[0]) && link == Connected(old(link.pending[1..]))
    {
      if link.pending == [] {
        r := Raised;
      } else {
        r := link.pending[0];
        link := Connected(link.pending[1..]);
      }
    }

    /**
     The wait for a size prefix (lines 89-98) starting from buffer `data`: its
     outcome is the one AwaitHeader specifies. On a teardown the socket is gone;
     when `recv` raises the socket is still set, for the `except` clause to drop.
     */
    method ReceiveHeader(data: seq<byte>) returns (r: HeaderWait)
      requires link.Connected?
      modifies this`link
      ensures r == AwaitHeader(headerWidth, data, old(link.pending), 0)
      ensures r.Ready? ==> link == Connected(r.rest)
      ensures r.GaveUp? ==> link == Closed
      ensures r.Failed? ==> link.Connected?
    {
      var buffer := data;
      var emptyResponses: nat := 0;
      while |buffer| < headerWidth
        invariant link.Connected? && emptyResponses <= EmptyLimit
        invariant AwaitHeader(headerWidth, buffer, link.pending, emptyResponses)
               == AwaitHeader(headerWidth, data, old(link.pending), 0)
        decreases |link.pending|
      {
        ghost var before, count := link.pending, emptyResponses;
        var response := Receive();
        if response.Raised? {
          return Failed;
        }
        assert before[0] == response && before[1..] == link.pending;
        if response.bytes == [] {
          assert buffer + response.bytes == buffer;
          emptyResponses := emptyResponses + 1;
          if emptyResponses > EmptyLimit {
            Teardown();
            return GaveUp;
          }
        } else {
          emptyResponses := 0;
        }
        ghost var prior := buffer;
        buffer := buffer + response.bytes;
        assert AwaitHeader(headerWidth, prior, before, count)
            == AwaitHeader(headerWidth, buffer, link.pending, emptyResponses);
      }
      return Ready(buffer, link.pending);
    }

    /**
     The wait for `msgSize` payload bytes (lines 107-108): its outcome is the
     one AwaitBody specifies. The model of the loop stops at the first empty
     read with Stuck, where the source goes on calling `recv` on the closed
     socket for ever.
     */
    method ReceiveBody(msgSize: nat, data: seq<byte>) returns (r: BodyWait)
      requires link.Connected?
      modifies this`link
      ensures r == AwaitBody(msgSize, data, old(link.pending))
      ensures link.Connected? && (r.Complete? ==> link == Connected(r.rest))
    {
      var buffer := data;
      while |buffer| < msgSize
        invariant link.Connected?
        invariant AwaitBody(msgSize, buffer, link.pending) == AwaitBody(msgSize, data, old(link.pending))
        decreases |link.pending|
      {
        ghost var before := link.pending;
        var response := Receive();
        if response.Raised? {
          return Broken;
        }
        assert before[0] == response && before[1..] == link.pending;
        if response.bytes == [] {
          return Stuck;
        }
        buffer := buffer + response.bytes;
      }
      return Complete(buffer, link.pending);
    }

    /**
     One pass of the inner `while self.running` loop up to the decode (lines
     89-111): the prefix, then the payload it announces, sliced off the buffer.
     Its outcome is the one NextFrame specifies. A teardown leaves no socket;
     when `recv` raises the socket is still set, for the `except` clause to
     drop, and so it is when the thread hangs in the payload wait.
     */
    method ReceiveFrame(data: seq<byte>) returns (r: Step)
      requires Valid() && link.Connected?
      modifies this`link
      ensures r == NextFrame(headerWidth, order, data, old(link.pending))
      ensures r.Frame? ==> link == Connected(r.rest)
      ensures r == Halt(TornDown) ==> link == Closed
      ensures r == Halt(Dropped) || r == Halt(Hung) ==> link.Connected?
    {
      var header := ReceiveHeader(data);
      if header.GaveUp? {
        return Halt(TornDown);
      }
      if header.Failed? {
        return Halt(Dropped);
      }
      var buffer := header.data;
      var packedMsgSize := buffer[..headerWidth];
      buffer := buffer[headerWidth..];
      var msgSize := DecodeSize(packedMsgSize, order);
      var body := ReceiveBody(msgSize, buffer);
      if body.Broken? {
        return Halt(Dropped);
      }
      if body.Stuck? {
        return Halt(Hung);
      }
      buffer := body.data;
      var frameData := buffer[..msgSize];
      buffer := buffer[msgSize..];
      return Frame(packedMsgSize, frameData, buffer, link.pending);
    }

    /**
     One pass of the inner `while self.running` loop (lines 89-113): receive a
     frame and show what `pickle.loads` makes of it. `more` is false when the
     connection ended instead: torn down, dropped by the `except` clause
     (lines 114-115) because `recv` or `pickle.loads` raised, or hung in the
     payload wait with the socket still set. The frame is
     the one NextFrame specifies, so the session from `data` is `frame`
     followed by the session from `left`, or ends here.
     */
    method ServeFrame(data: seq<byte>) returns (left: seq<byte>, more: bool, ghost frame: seq<byte>)
      requires Valid() && link.Connected?
      modifies this`link, this`imgToShow, this`decoded, this`endings
      ensures Valid()
      ensures var t := sessionFrom(data, old(link.pending));
        if more then
          link.Connected? && |left| + |Flat(link.pending)| < |data| + |Flat(old(link.pending))|
          && t.payloads == [frame] + sessionFrom(left, link.pending).payloads
          && t.end == sessionFrom(left, link.pending).end
          && decoded == old(decoded) + [frame] && Unpickled(unpickle, frame) == Some(imgToShow)
          && endings == old(endings)
        else
          (link.Connected? <==> t.end == Hung) && t.payloads == [] && imgToShow == old(imgToShow)
          && decoded == old(decoded) && endings == old(endings) + [t.end]
    {
      ghost var r := NextFrame(headerWidth, order, data, link.pending);
      NextFrameShrinks(headerWidth, order, data, link.pending);
      SessionUnfold(headerWidth, order, unpickle, data, link.pending);
      var step := ReceiveFrame(data);
      if step.Halt? {
        if step.end == Dropped {
          link := Closed;
        }
        endings := endings + [step.end];
        return data, false, [];
      }
      var img := Unpickled(unpickle, step.payload);
      if img.None? {
        link := Closed;
        endings := endings + [Dropped];
        return data, false, [];
      }
      imgToShow := img.value;
      decoded := decoded + [step.payload];
      return step.data, true, step.payload;
    }

    /**
     The `try` block of `run` (lines 83-115) on a connected socket: frames are
     decoded and shown until the connection is torn down, an exception drops
     it or it hangs. What is decoded, how the connection ends and the image
     left showing are those of Session on the socket's script, starting from
     an empty buffer; only a hung connection keeps its socket.
     */
    method Serve()
      requires Valid() && running && link.Connected?
      modifies this`link, this`imgToShow, this`decoded, this`endings
      ensures Valid()
      ensures var t := sessionFrom([], old(link.pending));
        (link.Connected? <==> t.end == Hung) && imgToShow == LastShown(unpickle, old(imgToShow), t.payloads)
        && decoded == old(decoded) + t.payloads && endings == old(endings) + [t.end]
    {
      var data: seq<byte> := [];
      ghost var shown: seq<seq<byte>> := [];
      ghost var whole := sessionFrom([], link.pending);
      while running
        invariant Valid() && link.Connected?
        invariant whole.payloads == shown + sessionFrom(data, link.pending).payloads
        invariant whole.end == sessionFrom(data, link.pending).end
        invariant imgToShow == LastShown(unpickle, old(imgToShow), shown)
        invariant decoded == old(decoded) + shown && endings == old(endings)
        decreases |data| + |Flat(link.pending)|
      {
        var more;
        ghost var frame;
        data, more, frame := ServeFrame(data);
        if !more {
          assert shown + [] == shown;
          break;
        }
        AppendAssoc(shown, [frame], sessionFrom(data, link.pending).payloads);
        shown := shown + [frame];
      }
    }

    /**
     `run()` (lines 81-118) with `running` set, given the outcomes of its
     `connect` calls: it serves each connection to its end and falls back to
     the offline image and a new `setup` whenever it has no socket. It stops
     when the attempts are used up, right after showing the offline image,
     or when a connection hangs, still holding that socket.
     */
    method Run(attempts: seq<Option<seq<Recv>>>)
      requires Valid()
      modifies this`link, this`imgToShow, this`decoded, this`endings
      ensures Valid()
      ensures var o := Replay(sessionFrom, unpickle, outputSize, old(link), old(imgToShow), attempts);
        if old(running) then
          (link.Connected? <==> Hung in o.endings) && imgToShow == o.image
          && decoded == old(decoded) + o.payloads && endings == old(endings) + o.endings
        else
          link == old(link) && imgToShow == old(imgToShow) && decoded == old(decoded) && endings == old(endings)
    {
      var i := 0;
      ghost var payloads: seq<seq<byte>> := [];
      ghost var ends: seq<End> := [];
      ghost var whole := Replay(sessionFrom, unpickle, outputSize, link, imgToShow, attempts);
      assert attempts[0..] == attempts;
      while running
        invariant 0 <= i <= |attempts| && Valid()
        invariant OnTrack(sessionFrom, unpickle, outputSize, whole, payloads, ends, link, imgToShow, attempts[i..])
        invariant decoded == old(decoded) + payloads && endings == old(endings) + ends
        invariant !running ==> link == old(link) && imgToShow == old(imgToShow) && payloads == [] && ends == []
        decreases |attempts| - i, if link.Connected? then 1 else 0
      {
        if link.Connected? {
          ghost var t := sessionFrom([], link.pending);
          ServedOnTrack(sessionFrom, unpickle, outputSize, whole, payloads, ends, link.pending, imgToShow, attempts[i..]);
          AppendAssoc(old(decoded), payloads, t.payloads);
          AppendAssoc(old(endings), ends, [t.end]);
          Serve();
          payloads := payloads + t.payloads;
          ends := ends + [t.end];
          if link.Connected? {
            // Hung in the payload wait: the thread never comes back to this loop.
            break;
          }
        } else {
          ResetOnTrack(sessionFrom, unpickle, outputSize, whole, payloads, ends, imgToShow, attempts[i..]);
          imgToShow := offlineStreamImg;
          if i == |attempts| {
            break;
          }
          Setup(attempts[i]);
          assert attempts[i..][1..] == attempts[i + 1..];
          i := i + 1;
        }
      }
    }
  }
}
