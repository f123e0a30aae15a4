# A verified model of the camera-stream relay

The relay collects frames from IP cameras and re-serves them to viewers as
one mosaic. The model covers these parts:

- **Ingestor** (`ReadWebcamOverIP`). Each camera has one ingestor. It keeps
  a TCP connection to the camera, reassembles the length-prefixed frames
  `struct.pack("L", len(data)) + data` from the `recv` results and keeps
  the last decoded frame. While it has no connection it shows a
  "Stream Offline" image.
  - The payload wait has no guard against empty reads. A peer that closes
    in the middle of a payload leaves the ingestor's thread spinning for
    ever, so the connection "hangs".
  - `read()` returns the current image when it has the output shape.
    Otherwise it calls `cv2.resize` with the three-element
    `self.output_size`, which OpenCV refuses, so `read()` raises.
- **Compositor** (`CombineStreams`). It tiles the ingestors' current frames
  into a `columns x rows` grid, with a blank cell for each missing stream,
  stacks the grid and resizes it. It raises when a `read()` raises, when the
  shapes do not stack, when there is no cell, or when the target size has a
  zero component.
- **Relay** (`rtsp_clients`, `RTSPClientLookup.run`, the broadcast loop of
  `RTSP.run`).
  - The lookup thread appends viewers while at most five are listed.
  - The broadcast pass sends each viewer its framed, pickled mosaic.
  - A pass removes and closes every visited viewer whose send raises.
    Python's `list.remove` inside the `for` loop also makes the pass skip
    the viewer after each removed one.
- **Start-up** (`main`). It parses `PORT`, `STREAM_SIZE` and `STREAM_IPS`,
  resolves the hosts, creates one ingestor per entry and stores the
  ingestors under `host:port` keys, where a later entry overwrites an
  earlier one.

The modules and their files:

- `Common` (common.dfy): value types.
- `Framing` (framing.dfy): the size prefix, with its width and byte order
  as parameters.
- `Receive` (receive.dfy): the receive loop as pure functions.
- `Images` (images.dfy): images as abstract contents with a shape.
- `Ingestion` (ingestor.dfy): class `Ingestor`.
- `Compositor` (compositor.dfy).
- `Relay` (relay.dfy): class `Server`.
- `Config` (config.dfy).

Threads are modelled one pass at a time. The following are parameters:

- what a socket's `recv` calls return (a script of chunks or raises; an
  empty chunk is the empty read of a socket whose peer has closed);
- the outcome of each `connect` and `accept`;
- which peers still take data;
- `pickle.dumps` and `pickle.loads`;
- `gethostbyname`.

The three main end-to-end results:

- `Relay.ViewerGetsWhatWasSent`: the bytes the relay writes to a socket,
  read back through the ingestor's receive loop, give exactly the payloads
  sent.
- `Relay.Server.Broadcast`: a broadcast pass is what the closed-form
  `Sweep` predicts (kept, served and dropped viewers), and it keeps the
  relay's invariant.
- `Config.ReadWrittenSettings`: settings written as `PORT=n`,
  `STREAM_SIZE=WxH` and `STREAM_IPS=host:port,...` read back as written.

## Model

| member | source | states |
|---|---|---|
| Framing.DecodeLEBound | streamHandler.py:102-105 | A little-endian prefix of w bytes announces a size below 256^w |
| Framing.DecodeBEBound | streamHandler.py:102-105 | A big-endian prefix of w bytes announces a size below 256^w |
| Framing.LittleEndianRoundTrip | streamHandler.py:181 | Every size below 256^w survives little-endian encoding and decoding |
| Framing.BigEndianRoundTrip | streamHandler.py:181 | Every size below 256^w survives big-endian encoding and decoding |
| Framing.LittleEndianCanonical | streamHandler.py:102-105 | Re-encoding a decoded little-endian prefix gives the same bytes |
| Framing.BigEndianCanonical | streamHandler.py:102-105 | Re-encoding a decoded big-endian prefix gives the same bytes |
| Framing.SizeRoundTrip | streamHandler.py:105 | `struct.unpack` of `struct.pack` of n is n for every n below 256^w, in either byte order |
| Framing.PrefixRoundTrip | streamHandler.py:102-105 | Every w-byte prefix decodes to a size below 256^w and is the encoding of that size |
| Framing.EncodeSize | streamHandler.py:181 | `struct.pack("L", n)` is always exactly w bytes |
| Framing.DecodeSize | streamHandler.py:105 | Definition of `struct.unpack("L", h)[0]`; SizeRoundTrip and PrefixRoundTrip state that it inverts EncodeSize |
| Framing.Pack | streamHandler.py:181 | Definition of `struct.pack("L", len(data)) + data`, None when the length does not fit; PackShape states what it yields |
| Framing.PackAll | streamHandler.py:181 | Definition of the byte stream of several frames; PackAllSnoc and Receive.SessionDeliversAll state how it is built and read back |
| Framing.PackShape | streamHandler.py:181 | Framing succeeds iff the payload is shorter than 256^w; the frame is then w prefix bytes announcing the payload's length, followed by the payload |
| Framing.PackAllSnoc | streamHandler.py:181 | Sending one more frame appends its bytes to the socket's stream |
| Receive.AwaitHeader | streamHandler.py:90-98 | When the prefix wait succeeds, the buffer holds at least w bytes |
| Receive.AwaitBody | streamHandler.py:107-108 | When the payload wait succeeds, the buffer holds at least `msg_size` bytes; an empty read before that leaves it stuck for ever |
| Receive.NextFrame | streamHandler.py:89-111 | A frame's prefix is w bytes and announces exactly the payload's length |
| Receive.Session | streamHandler.py:86-115 | Every payload a connection reports is one that `pickle.loads` accepts |
| Receive.AwaitHeaderKeepsBytes | streamHandler.py:90-98 | The prefix wait neither loses nor invents bytes, and it consumes a suffix of the script |
| Receive.AwaitBodyKeepsBytes | streamHandler.py:107-108 | The payload wait neither loses nor invents bytes |
| Receive.NextFrameKeepsBytes | streamHandler.py:89-111 | Buffer plus unread script equals prefix, then payload, then the new buffer and the rest |
| Receive.NextFrameShrinks | streamHandler.py:89-111 | Each frame consumes at least w bytes of buffer plus script |
| Receive.NextFrameFromStream | streamHandler.py:102-111 | Reading from a stream that starts with a well-framed payload yields exactly that payload and leaves the rest of the stream |
| Receive.BufferedFrame | streamHandler.py:99-111 | A frame that is already whole in the buffer is sliced out with no `recv` |
| Receive.FrameRoundTrip | streamHandler.py:102-111 | Receiving a packed payload gives that payload, and the leftover bytes stay buffered |
| Receive.GiveUpAfterLimit | streamHandler.py:92-96 | More than ten consecutive empty reads before the prefix is complete cause a teardown |
| Receive.SilenceTearsDown | streamHandler.py:92-100 | A run of more than ten empty reads before the prefix ends the connection by teardown |
| Receive.GaveUpOnlyAfterSilence | streamHandler.py:89-98 | The prefix wait gives up only after more than ten consecutive empty reads |
| Receive.TornDownNeedsSilence | streamHandler.py:89-100 | A frame read ends in teardown only if the script has such a silent run |
| Receive.HeaderArrives | streamHandler.py:90-98 | Without raises or long silences, enough input makes the prefix wait succeed |
| Receive.HeaderNeverArrives | streamHandler.py:90-98 | Without raises or long silences, too little input makes the prefix wait fail, because the script runs out |
| Receive.BodyArrives | streamHandler.py:107-108 | When every `recv` returns data, enough input completes the payload wait |
| Receive.PeerCloseHangs | streamHandler.py:107-108 | A peer that closes (its last `recv` is empty) before the announced payload is complete leaves the payload wait spinning |
| Receive.StuckNeedsEmptyRead | streamHandler.py:107-108 | The payload wait spins only after an empty read |
| Receive.NextFrameHangsOnClose | streamHandler.py:99-108 | A whole prefix and part of its payload, followed by a peer that sends less than the rest and closes, make the frame read hang |
| Receive.NextFrameHangNeedsEmptyRead | streamHandler.py:89-111 | A frame read hangs only after an empty read |
| Receive.NextFrameArrives | streamHandler.py:89-111 | When every `recv` returns data, a whole frame in the input is read |
| Receive.NextFrameDelivers | streamHandler.py:89-111 | When every `recv` returns data, a stream starting with a packed payload yields that payload, and what follows is left |
| Receive.SessionFramesWereSent | streamHandler.py:86-115 | What a connection decodes is always a prefix of the payloads the producer framed |
| Receive.SessionDeliversAll | streamHandler.py:86-115 | When every `recv` returns data and the script carries exactly the producer's frames, every payload is decoded in order, and the connection then ends by an exception |
| Receive.SessionTornDownNeedsSilence | streamHandler.py:86-115 | A connection ends by teardown only after a long run of empty reads |
| Receive.SessionHangNeedsEmptyRead | streamHandler.py:86-115 | A connection hangs only if its script has an empty read |
| Ingestion.Replay | streamHandler.py:81-118 | Definition of the outer loop of `run` on given connect outcomes; Ingestor.Run is proved against it and ReplayServesEachConnection, NoConnectionNoFrames and ReplayEndsOffline state its properties |
| Ingestion.UpToHang | streamHandler.py:81-118 | The connections `run` gets to serve are a prefix of those it obtains, none but the last of them hangs, and when some are never served the last served one hung |
| Ingestion.ReplayServesEachConnection | streamHandler.py:81-118 | The outer loop serves every connection it obtains, in order and each to its end, until one hangs: decoded frames are the concatenation of those sessions' frames, with one ending per served connection |
| Ingestion.NoConnectionNoFrames | streamHandler.py:116-118 | Without a successful connect, nothing is decoded and the offline image is shown |
| Ingestion.ReplayEndsOffline | streamHandler.py:116-118 | Without a hang the ingestor ends on the offline image. A hang is the last ending. After a hang it shows the offline image, the last decoded frame, or the image it started with on the socket it already held |
| Ingestion.OfflineImage | streamHandler.py:49-53 | Definition of the placeholder image, `output_size[0]` rows by `output_size[1]` columns; the constructor and ReplayEndsOffline state where it is shown |
| Ingestion.Ingestor.constructor | streamHandler.py:41-57 | A new ingestor is running, has no socket and shows the offline image of the output size |
| Ingestion.Ingestor.Read | streamHandler.py:59-63 | `read()` returns the shown image iff that image has the output shape, and otherwise raises; for a valid ingestor that means the offline image, or a frame unpickled at the output size |
| Ingestion.Ingestor.Stop | streamHandler.py:65 | `stop()` clears `running` and changes nothing else |
| Ingestion.Ingestor.Setup | streamHandler.py:67-75 | A successful connect yields a connected socket; a failed one leaves the socket as it was |
| Ingestion.Ingestor.Teardown | streamHandler.py:77-79 | Teardown drops the socket |
| Ingestion.Ingestor.Receive | streamHandler.py:91 | `recv` returns the script's next result; on an exhausted script it raises, as the socket timeout does |
| Ingestion.Ingestor.ReceiveHeader | streamHandler.py:89-98 | The prefix loop is AwaitHeader on the socket's script; the socket is left at the rest of the script, or dropped on give-up |
| Ingestion.Ingestor.ReceiveBody | streamHandler.py:107-108 | The payload loop is AwaitBody on the socket's script: it completes, raises, or spins on an empty read |
| Ingestion.Ingestor.ReceiveFrame | streamHandler.py:89-111 | One frame read is NextFrame on the socket's script, and the socket ends where NextFrame says; the socket is still held only after a hang or a drop |
| Ingestion.Ingestor.ServeFrame | streamHandler.py:88-115 | One pass decodes and shows a frame, or ends the connection; what is left to serve is the session from the rest, and the socket is still held after such an end iff the connection hangs |
| Ingestion.Ingestor.Serve | streamHandler.py:86-115 | Serving a connection decodes exactly Session's payloads, shows the last of them, and records how the connection ended; the socket is still held iff it hangs |
| Ingestion.Ingestor.Run | streamHandler.py:81-118 | `run()` does what Replay predicts for the connect outcomes, still holding a socket iff a connection hung, and does nothing at all when not running |
| Ingestion.ServedOnTrack | streamHandler.py:86-115 | Serving the held socket keeps the outer loop on its Replay, or completes the outcome when the connection hangs |
| Ingestion.ResetOnTrack | streamHandler.py:116-118 | Without a socket the outer loop shows the offline image and goes on with the next connect, or ends with its whole outcome |
| Compositor.SnapshotAt | streamHandler.py:25 | The frame used for stream k is that ingestor's `read()` |
| Compositor.CellAt | streamHandler.py:25 | Definition of a cell: stream k, or the blank image once the ingestors run out; GridLayout states where each lands |
| Compositor.HStack | streamHandler.py:30 | Definition of `hstack`, None unless the heights agree; StackBand states its use |
| Compositor.VStack | streamHandler.py:36 | Definition of `vstack`, None unless the widths agree; StackStep states its use |
| Compositor.BandStartIsProduct | streamHandler.py:19-30 | `current_stream` is c * rows at the start of column c |
| Compositor.BandsInOrder | streamHandler.py:19-30 | Column c's streams all come before the last column's end |
| Compositor.Grid | streamHandler.py:19-31 | The grid has one band per column |
| Compositor.BandsFitPrefix | streamHandler.py:32-36 | If the first m bands stack, so do the first n for every n <= m |
| Compositor.BandsFitMeans | streamHandler.py:28-36 | The bands stack iff every band fits and matches the first band's width |
| Compositor.Fits | streamHandler.py:21-36 | Definition of "the stacking succeeds": a positive grid whose bands all stack; BandsFitMeans states it band by band |
| Compositor.Mosaic | streamHandler.py:15-38 | Definition of what `CombineStreams` returns; CombineStreams is proved against it and GridLayout, UniformComposite and OnlyShownStreamsMatter state its properties |
| Compositor.FillCell | streamHandler.py:25-26 | A cell shows stream k's frame when k is in range, and otherwise the blank image of the output size |
| Compositor.StackBand | streamHandler.py:23-30 | The `hstack` of a column succeeds iff all its cells have equal height; it then builds that band |
| Compositor.StackStep | streamHandler.py:32-36 | `vstack` of one more band succeeds iff the widths agree, and then gives the stack of one more column |
| Compositor.StackAdvance | streamHandler.py:27-36 | Adding one band keeps the stack of the bands so far, or shows that the whole grid does not stack |
| Compositor.StackBands | streamHandler.py:21-36 | The two loops succeed iff every band stacks, and then hold the stack of all bands |
| Compositor.CombineStreams | streamHandler.py:15-38 | The result exists iff the grid is positive, every shown `read()` succeeds, the cells stack and the final resize is from and to a non-empty size; it is then the grid of cells, in column-major order, resized to the output size |
| Compositor.BandCellsAt | streamHandler.py:23-30 | Row r of a band starting at stream s shows stream s + r |
| Compositor.GridLayout | streamHandler.py:19-30 | Grid cell (c, r) shows stream c * rows + r when that stream exists, and the blank image otherwise |
| Compositor.ShownStreamsInRange | streamHandler.py:25 | Every shown stream index is below both the stream count and columns * rows |
| Compositor.StreamPlacement | streamHandler.py:19-30 | Each stream k < columns * rows appears in column k / rows, row k % rows |
| Compositor.BandAgrees | streamHandler.py:23-30 | A band depends only on the streams it shows |
| Compositor.StackAgrees | streamHandler.py:32-36 | The stack of c columns depends only on the first c * rows streams |
| Compositor.OnlyShownStreamsMatter | streamHandler.py:25 | Streams beyond columns * rows change neither the mosaic nor whether it succeeds |
| Compositor.UniformBand | streamHandler.py:28-30 | With all frames at the output size, every band fits and is n times the output width |
| Compositor.UniformStack | streamHandler.py:32-36 | With all frames at the output size, every stack fits and is c times the output height |
| Compositor.UniformComposite | streamHandler.py:15-38 | With all frames at the output size, stacking succeeds iff columns and rows are positive, with the expected dimensions, and the mosaic exists iff the output size has no zero component as well |
| Compositor.IngestorsCompose | streamHandler.py:59-63 | Ingestors at the relay's output size whose images have that shape give frames of that size, so the mosaic exists iff the grid and the output size are positive |
| Compositor.OffSizeFrameFails | streamHandler.py:59-63 | One shown ingestor whose image differs from its output shape makes its `read()` raise and the whole composite fail |
| Compositor.UnreadableFails | streamHandler.py:24-30 | A shown cell whose `read()` raises makes the whole composite fail |
| Relay.Admission | streamHandler.py:204-207 | Definition of one lookup pass; AdmissionShape states what it does |
| Relay.AdmissionShape | streamHandler.py:204-207 | One lookup pass appends at most one viewer: only while at most five are listed and `accept` succeeds, and with shape (2, 2); the list never exceeds six |
| Relay.AdmitAll | streamHandler.py:202-209 | Definition of many lookup passes; AdmitAllShape states what they do |
| Relay.AdmitAllShape | streamHandler.py:202-209 | Over many passes listed viewers stay in order; new ones get shape (2, 2) and increasing fresh sockets; if every accept succeeds the list fills to exactly six |
| Relay.RemoveFirst | streamHandler.py:183 | `list.remove` of a listed viewer shortens the list by one |
| Relay.RemoveAt | streamHandler.py:183 | With distinct sockets, removing `cs[i]` drops exactly index i |
| Relay.Sweep | streamHandler.py:177-185 | Definition of one `for client in rtsp_clients` pass with in-loop removal; SweepSplits, SweepServesKept, SweepVerdicts and SkipAfterRemoval state its properties |
| Relay.SweepSplits | streamHandler.py:177-185 | Every viewer of a pass is either kept or dropped, as multisets |
| Relay.SweepServesKept | streamHandler.py:177-185 | Served viewers are among the kept ones, and at most as many kept viewers go unvisited as were dropped |
| Relay.SweepVerdicts | streamHandler.py:177-185 | Only viewers whose send raises are dropped, and only viewers whose send succeeds are served |
| Relay.SweepKeepsWorking | streamHandler.py:177-185 | A viewer whose send succeeds is never dropped |
| Relay.SweepAllWorking | streamHandler.py:177-185 | When every send succeeds, all viewers are served and none is dropped |
| Relay.SkipAfterRemoval | streamHandler.py:177-185 | The viewer after a failing viewer is kept without being visited, whether or not its own send would fail |
| Relay.AppendedAt | streamHandler.py:181 | Each socket receives, after its earlier bytes, the packets of the viewers on it, in pass order |
| Relay.AppendedKeys | streamHandler.py:181 | The sockets written so far are the earlier ones plus the served viewers' sockets |
| Relay.SentOne | streamHandler.py:181 | Writing a framed payload to a socket keeps the invariant that its bytes frame exactly its sent payloads |
| Relay.DroppedOne | streamHandler.py:183-185 | Removing a viewer and closing its socket keeps the invariant |
| Relay.Server.constructor | streamHandler.py:133-139 | A new relay has no viewers, no sockets and nothing written |
| Relay.Server.Admit | streamHandler.py:204-207 | One lookup pass updates the viewer list as Admission says and uses one socket number per admitted viewer |
| Relay.Server.Lookup | streamHandler.py:202-209 | The lookup thread's passes do what AdmitAll says; a raising `accept` admits nobody |
| Relay.Server.SendTo | streamHandler.py:178-182 | One viewer's `try` block writes its framed mosaic iff the mosaic, the framing and the peer all succeed, and otherwise writes nothing |
| Relay.Delivers | streamHandler.py:179-182 | Definition of "sending to a viewer succeeds": its mosaic and framing exist and its peer takes data; SendTo and DropReasons state its use |
| Relay.Server.Deliver | streamHandler.py:177-185 | The `for` loop keeps, closes and writes exactly what Sweep predicts, and keeps the invariant |
| Relay.Server.Broadcast | streamHandler.py:176-185 | A broadcast pass leaves the relay in the state Sweep predicts and keeps its invariant |
| Relay.DropReasons | streamHandler.py:179-185 | With ingestors at the output size, sending to a (2, 2) viewer succeeds iff the output size has no zero component, its pickled mosaic fits the prefix and its peer still takes data |
| Relay.ViewerGetsWhatWasSent | streamHandler.py:181 | A viewer whose every `recv` returns data unpickles exactly the payloads sent to it, in order |
| Config.Split | __main__.py:12-16 | `str.split` gives at least one piece, and no piece holds the separator |
| Config.SplitJoin | __main__.py:12-16 | Joining the pieces of a split gives the string back |
| Config.JoinSplit | __main__.py:12-16 | Splitting a join of separator-free pieces gives the pieces back |
| Config.NatToString | __main__.py:24 | `str(n)` is a non-empty digit string with no leading zero |
| Config.ParseNatToString | __main__.py:24 | `int(str(n)) == n` |
| Config.ParsePort | __main__.py:10 | Definition of `int(environ["PORT"])`; ReadWrittenSettings states it reads back a written port |
| Config.ParseSize | __main__.py:12-13 | Definition of the output size parse; ReadWrittenSize states it reads back `WxH` |
| Config.ParseEntry | __main__.py:17-18 | Definition of one `STREAM_IPS` field's parse; EntriesAt states its use |
| Config.Entries | __main__.py:15-18 | Definition of `webcam_streams`; EntriesAt and StreamAddresses state what it holds |
| Config.EntriesAt | __main__.py:15-18 | `webcam_streams` has one entry per comma field, each that field's parse; otherwise the error is that of the first field that raises |
| Config.StreamAddresses | __main__.py:15-18 | The append loop builds exactly Entries of the comma fields, or stops at the first field that raises |
| Config.StreamKey | __main__.py:24 | Definition of the dictionary key `host:port`; KeyInjective states that it determines the entry |
| Config.KeyInjective | __main__.py:24 | For hosts without a colon, two entries have the same key iff they are the same entry |
| Config.KeyMap | __main__.py:20-24 | Definition of the `streams` dictionary; KeyMapKeys, KeyMapLastWins and DistinctKeysKeepAll state its properties |
| Config.KeyMapKeys | __main__.py:20-24 | The dictionary's keys are exactly the entries' keys |
| Config.KeyMapLastWins | __main__.py:20-24 | Each key holds the ingestor of the last entry with that key |
| Config.DistinctKeysKeepAll | __main__.py:20-24 | With distinct keys every ingestor is kept, under its own key |
| Config.StartIngestors | __main__.py:20-24 | One fresh, distinct, started ingestor per entry, in order, stored under its key |
| Config.ReadWrittenSettings | __main__.py:8-18 | Settings written as `PORT=n`, `STREAM_SIZE=WxH` and `STREAM_IPS=host:port,...` read back as written, with hosts resolved |
| Config.ReadWrittenSize | __main__.py:12-13 | `WxH`, with any further `x` pieces, reads as (W, H) |
| Config.ReadWrittenAddresses | __main__.py:15-18 | `host:port,...` with colon- and comma-free hosts reads as the resolved entries |
| Config.ReadSettings | __main__.py:8-18 | Definition of lines 8-18 with the first raising step deciding the error; ReadWrittenSettings and Launch state its properties |
| Config.Launch | __main__.py:8-24 | `main` fails with exactly ReadSettings' error, creating no ingestor, or starts one ingestor per entry and keys them |

## Left out

- Pixels. An image is an abstract content with a shape. The following are
  not modelled: `cv2.rectangle` (assumed not to raise), `cv2.putText`, the
  `zeros` buffers, the colour dimension, and resize interpolation. The final
  resize of `CombineStreams` keeps the cells and sets the shape.
- `pickle` and `struct.calcsize("L")`. The serialisation functions
  `pickle.dumps` and `pickle.loads` are parameters. The native width and
  byte order of the "L" prefix are also parameters; the width must be
  positive.
- `recv(4096)` returns at most 4096 bytes. The scripts do not bound the
  size of a chunk, so they also allow larger ones.
- An empty chunk stands for the empty read of a closed peer. The delivery
  lemmas (BodyArrives, NextFrameArrives, NextFrameDelivers,
  SessionDeliversAll, ViewerGetsWhatWasSent) assume that every `recv` returns
  data; the hang lemmas describe what happens otherwise.
- A hung ingestor thread spins for ever; the model records the hang as the
  connection's last ending and stops there.
- Threads and concurrency. The three threads share `rtsp_clients`, so the
  lookup thread can append while a broadcast pass iterates. Each operation
  is modelled as one atomic pass, so no interleaving is represented.
- `sleep`, `print` and every log message.
- The RTSP thread's set-up and shutdown are not part of this model:
  - `RTSP_Setup`, `RTSP.setup` and `RTSP.teardown`;
  - the local address discovery (`gethostbyname(gethostname())`,
    `hostname -I`) and the server socket's `bind` and `listen`;
  - `RTSP.stop` and `RTSPClientLookup.stop`;
  - the outer loops and outer `try` of `RTSP.run` (lines 173-176 and
    186-188) and the outer `try` of `RTSPClientLookup.run` (lines 201 and
    210-211).
  Each broadcast pass is modelled on its own. The lookup thread's
  `while self.running` (line 202) is modelled by `Server.Lookup`, one pass
  per `accept` outcome.
- Sockets are identified by number and modelled by what is written to them.
  - `sendall` is all-or-nothing: a peer outside `reachable` raises before
    any byte is written. Partial writes are not modelled.
  - A closed socket is only recorded in `closed`.
- `TCP` is imported by `__main__.py` (lines 4, 26-27) but is not defined in
  streamHandler.py, so starting it is not part of this model.
- `main` hands a `host:port` dictionary to the relay, but `CombineStreams`
  indexes `streams[current_stream]` by position. The model gives the relay
  a sequence of ingestors.
- `tsk.start()` (line 23) starts the ingestor's thread. Its body is
  `Ingestor.Run`; the start itself is not modelled.
- `int()` accepts only decimal digits. Python also accepts a sign,
  whitespace and underscores.
- `gethostbyname` is the parameter `resolve`.
- `environ` is a map.
- Relay.RemoveFirst: only the length change is stated for a listed viewer.
  What is removed is stated by Relay.RemoveAt.
- Facts of the code that the model keeps as written:
  - Admission: the lookup thread accepts while `len(rtsp_clients) <= 5`,
    so a sixth viewer is admitted (AdmissionShape, AdmitAllShape).
  - Compositing: each viewer gets its own `CombineStreams` call, with no
    grouping of identical requests. Cells are not resized to a cell box;
    only the whole stack is resized at the end.
  - Stacked shapes: cells whose shapes do not match make `hstack` or
    `vstack` raise, and the viewer is dropped. The blank cell is
    `output_size[0]` rows by `output_size[1]` columns. The final
    `cv2.resize(img, output_size)` gives a picture `output_size[1]` high
    and `output_size[0]` wide, because OpenCV takes the size as
    (width, height).
  - A frame of another shape than the output size makes `read()` raise,
    and every viewer whose grid shows that ingestor is dropped
    (OffSizeFrameFails).
  - Removing a viewer inside the `for` loop makes the pass skip the next
    viewer, which is neither served nor dropped in that pass
    (SkipAfterRemoval).
