/**
 The relay side: the list of viewers `rtsp_clients`, the lookup thread that
 admits them (`RTSPClientLookup.run`, streamHandler.py lines 204-207) and the
 broadcast pass of `RTSP.run` (lines 176-185), which sends every viewer its
 mosaic of the ingestors and drops a viewer whose send raises.

 Threads are modelled one pass at a time. A socket is identified by the
 order `accept` returned it in; what `accept` returns and which peers still
 take data are parameters. The bytes written to each socket are kept, with
 the payloads they carry, so that the receive side can be applied to them.
 */
module Relay {
  import opened Common
  import opened Framing
  import opened Images
  import opened Receive
  import opened Ingestion
  import opened Compositor

  /** The lookup thread calls `accept` only while at most this many viewers are listed. */
  const AdmitLimit: nat := 5

  /** The (columns, rows) of the mosaic every new viewer gets. */
  const ClientShape: (int, int) := (2, 2)

  /** A connected socket, numbered in the order `accept` returned it. */
  type Conn = nat

  /** An entry `(conn, addr, shape)` of `rtsp_clients`. */
  datatype Client = Client(conn: Conn, addr: string, shape: (int, int))

  /** No two entries share a socket. */
  predicate DistinctConns(cs: seq<Client>)
  {
    forall i, j :: 0 <= i < j < |cs| ==> cs[i].conn != cs[j].conn
  }

  /** The sockets of the entries. */
  function Conns(cs: seq<Client>): set<Conn>
  {
    set c | c in cs :: c.conn
  }

  // ---------------------------------------------------------------------------
  // Admission (lines 204-207).

  /**
   One pass of the lookup loop on list `cs`: when at most AdmitLimit viewers are
   listed, `accept` is called, and the connection it returns from address
   `accepted` (None: `accept` raised) is appended on the fresh socket `next`
   with the (2, 2) shape.
   */
  function Admission(cs: seq<Client>, next: Conn, accepted: Option<string>): seq<Client>
  {
    if |cs| <= AdmitLimit && accepted.Some? then cs + [Client(next, accepted.value, ClientShape)] else cs
  }

  /** Passes of the lookup loop, one per entry of `attempts`; each admission uses the next socket number. */
  function AdmitAll(cs: seq<Client>, next: Conn, attempts: seq<Option<string>>): seq<Client>
    decreases |attempts|
  {
    if attempts == [] then cs
    else
      var cs' := Admission(cs, next, attempts[0]);
      AdmitAll(cs', next + (|cs'| - |cs|), attempts[1..])
  }

  /** A pass appends at most one viewer, only while at most AdmitLimit are
      listed, and then with the (2, 2) shape; the list never grows past
      AdmitLimit + 1 (six) entries. */
  lemma AdmissionShape(cs: seq<Client>, next: Conn, accepted: Option<string>)
    ensures var r := Admission(cs, next, accepted);
      && r[..|cs|] == cs
      && (|r| == |cs| + 1 <==> |cs| <= AdmitLimit && accepted.Some?)
      && (|r| != |cs| + 1 ==> r == cs)
      && (|r| == |cs| + 1 ==> r[|cs|] == Client(next, accepted.value, ClientShape))
      && (|cs| <= AdmitLimit + 1 ==> |r| <= AdmitLimit + 1)
  {
  }

  /**
   Over many passes, the listed viewers stay, in order; every appended one has
   the (2, 2) shape and a socket numbered from `next` on; and when every
   `accept` succeeds, the list fills up to exactly six entries.
   */
  lemma {:induction false} AdmitAllShape(cs: seq<Client>, next: Conn, attempts: seq<Option<string>>)
    ensures var r := AdmitAll(cs, next, attempts);
      && |cs| <= |r| && r[..|cs|] == cs
      && (forall k :: |cs| <= k < |r| ==> r[k].shape == ClientShape && next <= r[k].conn < next + (|r| - |cs|))
      && (forall k, l :: |cs| <= k < l < |r| ==> r[k].conn < r[l].conn)
      && (|cs| <= AdmitLimit + 1 ==> |r| <= AdmitLimit + 1)
      && ((forall k :: 0 <= k < |attempts| ==> attempts[k].Some?) && |cs| <= AdmitLimit + 1 ==>
            |r| == Min(|cs| + |attempts|, AdmitLimit + 1))
    decreases |attempts|
  {
    if attempts != [] {
      var cs' := Admission(cs, next, attempts[0]);
      AdmissionShape(cs, next, attempts[0]);
      var next' := next + (|cs'| - |cs|);
      AdmitAllShape(cs', next', attempts[1..]);
      var r := AdmitAll(cs', next', attempts[1..]);
      assert r == AdmitAll(cs, next, attempts);
      assert r[..|cs|] == r[..|cs'|][..|cs|];
      if (forall k :: 0 <= k < |attempts| ==> attempts[k].Some?) && |cs| <= AdmitLimit + 1 {
        assert forall k :: 0 <= k < |attempts[1..]| ==> attempts[1..][k] == attempts[k + 1];
      }
    }
  }

  // ---------------------------------------------------------------------------
  // The broadcast pass (lines 176-185).

  /** Python's `list.remove(x)`: drops the first entry equal to x. */
  function RemoveFirst(cs: seq<Client>, x: Client): (r: seq<Client>)
    ensures x in cs ==> |r| == |cs| - 1
  {
    if cs == [] then []
    else if cs[0] == x then cs[1..]
    else [cs[0]] + RemoveFirst(cs[1..], x)
  }

  /** In a list without shared sockets, removing entry i drops exactly that entry. */
  lemma {:induction false} RemoveAt(cs: seq<Client>, i: nat)
    requires DistinctConns(cs) && i < |cs|
    ensures RemoveFirst(cs, cs[i]) == cs[..i] + cs[i + 1..]
  {
    if i > 0 {
      assert cs[0] != cs[i] by {
        assert cs[0].conn != cs[i].conn;
      }
      assert DistinctConns(cs[1..]) by {
        forall a, b | 0 <= a < b < |cs[1..]|
          ensures cs[1..][a].conn != cs[1..][b].conn
        {
          assert cs[1..][a] == cs[a + 1] && cs[1..][b] == cs[b + 1];
        }
      }
      RemoveAt(cs[1..], i - 1);
      assert cs[1..][..i - 1] == cs[1..i] && cs[1..][i..] == cs[i + 1..];
      assert [cs[0]] + cs[1..i] == cs[..i];
    }
  }

  /** The viewers left after a pass, those sent a frame, and those dropped, in order. */
  datatype Pass = Pass(kept: seq<Client>, served: seq<Client>, dropped: seq<Client>)

  /**
   The `for client in rtsp_clients` pass over the list `cs`, where
   `delivers(c)` says whether sending c its frame succeeds. Python's list
   iterator walks an index: removing the viewer at index i
   (`rtsp_clients.remove(client)`) moves its successor onto index i while the
   iteration goes on at index i + 1, so the successor of a dropped viewer stays
   listed without being visited in this pass.
   */
  function Sweep(cs: seq<Client>, delivers: Client -> bool): Pass
    decreases |cs|
  {
    if cs == [] then Pass([], [], [])
    else if delivers(cs[0]) then
      var p := Sweep(cs[1..], delivers);
      Pass([cs[0]] + p.kept, [cs[0]] + p.served, p.dropped)
    else if |cs| == 1 then Pass([], [], [cs[0]])
    else
      var p := Sweep(cs[2..], delivers);
      Pass([cs[1]] + p.kept, p.served, [cs[0]] + p.dropped)
  }

  /** A pass splits the list: every viewer is either kept or dropped. */
  lemma {:induction false} SweepSplits(cs: seq<Client>, delivers: Client -> bool)
    ensures var p := Sweep(cs, delivers); multiset(p.kept) + multiset(p.dropped) == multiset(cs)
    decreases |cs|
  {
    if cs != [] {
      if delivers(cs[0]) {
        SweepSplits(cs[1..], delivers);
        var p := Sweep(cs[1..], delivers);
        assert cs == [cs[0]] + cs[1..];
        SplitsCons(cs[0], cs[1..], p.kept, p.dropped);
      } else if |cs| > 1 {
        SweepSplits(cs[2..], delivers);
        var p := Sweep(cs[2..], delivers);
        assert cs == [cs[0]] + ([cs[1]] + cs[2..]);
        SplitsCons(cs[1], cs[2..], p.kept, p.dropped);
        SplitsCons(cs[0], [cs[1]] + cs[2..], p.dropped, [cs[1]] + p.kept);
      } else {
        assert cs == [cs[0]];
      }
    }
  }

  lemma SplitsCons(c: Client, cs: seq<Client>, a: seq<Client>, b: seq<Client>)
    requires multiset(a) + multiset(b) == multiset(cs)
    ensures multiset([c] + a) + multiset(b) == multiset([c] + cs)
    ensures multiset(b) + multiset([c] + a) == multiset([c] + cs)
  {
    assert multiset([c] + a) == multiset{c} + multiset(a);
    assert multiset([c] + cs) == multiset{c} + multiset(cs);
  }

  /** The served viewers are among the kept ones, and a kept viewer goes
      unvisited only after a dropped one, so there are at most as many of those
      as dropped viewers. */
  lemma {:induction false} SweepServesKept(cs: seq<Client>, delivers: Client -> bool)
    ensures var p := Sweep(cs, delivers);
      multiset(p.served) <= multiset(p.kept) && |p.kept| - |p.served| <= |p.dropped|
    decreases |cs|
  {
    if cs != [] {
      if delivers(cs[0]) {
        SweepServesKept(cs[1..], delivers);
      } else if |cs| > 1 {
        SweepServesKept(cs[2..], delivers);
      }
    }
  }

  /** A viewer is dropped only when its send raises and sent a frame only
      when its send succeeds. */
  lemma {:induction false} SweepVerdicts(cs: seq<Client>, delivers: Client -> bool)
    ensures var p := Sweep(cs, delivers);
      && (forall x :: x in p.dropped ==> !delivers(x))
      && (forall x :: x in p.served ==> delivers(x))
    decreases |cs|
  {
    if cs != [] {
      if delivers(cs[0]) {
        SweepVerdicts(cs[1..], delivers);
      } else if |cs| > 1 {
        SweepVerdicts(cs[2..], delivers);
      }
    }
  }

  /** No viewer whose send succeeds is dropped. */
  lemma SweepKeepsWorking(cs: seq<Client>, delivers: Client -> bool, x: Client)
    requires x in cs && delivers(x)
    ensures x in Sweep(cs, delivers).kept
  {
    SweepSplits(cs, delivers);
    SweepVerdicts(cs, delivers);
    var p := Sweep(cs, delivers);
    assert x in multiset(cs);
  }

  /** When every send succeeds, the pass serves the whole list and drops nobody. */
  lemma {:induction false} SweepAllWorking(cs: seq<Client>, delivers: Client -> bool)
    requires forall x :: x in cs ==> delivers(x)
    ensures Sweep(cs, delivers) == Pass(cs, cs, [])
    decreases |cs|
  {
    if cs != [] {
      assert cs[0] in cs;
      assert forall x :: x in cs[1..] ==> x in cs;
      SweepAllWorking(cs[1..], delivers);
      assert cs == [cs[0]] + cs[1..];
    }
  }

  /** Python skips the viewer after a removed one: whatever its own send would
      do, it is kept without being served or dropped in this pass, and the
      pass goes on with the viewer after it. */
  lemma SkipAfterRemoval(a: Client, b: Client, rest: seq<Client>, delivers: Client -> bool)
    requires !delivers(a)
    ensures var p := Sweep(rest, delivers);
      Sweep([a, b] + rest, delivers) == Pass([b] + p.kept, p.served, [a] + p.dropped)
  {
    assert ([a, b] + rest)[2..] == rest;
  }

  /** What a socket has been written: bytes in `wire`, payloads in `sent`. */
  function Written<T>(m: map<Conn, seq<T>>, k: Conn): seq<T>
  {
    if k in m then m[k] else []
  }

  /** `m` after writing f(c) to the socket of each of `cs` in turn. */
  function Appended<T>(m: map<Conn, seq<T>>, cs: seq<Client>, f: Client -> seq<T>): map<Conn, seq<T>>
    decreases |cs|
  {
    if cs == [] then m
    else
      var before := Appended(m, cs[..|cs| - 1], f);
      var c := cs[|cs| - 1];
      before[c.conn := Written(before, c.conn) + f(c)]
  }

  /** Each socket receives, after what it had, what was written to it in order. */
  lemma {:induction false} AppendedAt<T>(m: map<Conn, seq<T>>, cs: seq<Client>, f: Client -> seq<T>, k: Conn)
    ensures Written(Appended(m, cs, f), k) == Written(m, k) + Along(cs, f, k)
    decreases |cs|
  {
    if cs != [] {
      var init := cs[..|cs| - 1];
      AppendedAt(m, init, f, k);
      var c := cs[|cs| - 1];
      if k == c.conn {
        AppendAssoc(Written(m, k), Along(init, f, k), f(c));
      }
    }
  }

  /** The sockets written to are those written before and the listed viewers' ones. */
  lemma {:induction false} AppendedKeys<T>(m: map<Conn, seq<T>>, cs: seq<Client>, f: Client -> seq<T>)
    ensures Appended(m, cs, f).Keys == m.Keys + Conns(cs)
    decreases |cs|
  {
    if cs != [] {
      var init := cs[..|cs| - 1];
      AppendedKeys(m, init, f);
      var c := cs[|cs| - 1];
      assert cs == init + [c];
      ConnsStep(init, c);
    }
  }

  function Along<T>(cs: seq<Client>, f: Client -> seq<T>, k: Conn): seq<T>
    decreases |cs|
  {
    if cs == [] then []
    else Along(cs[..|cs| - 1], f, k) + (if cs[|cs| - 1].conn == k then f(cs[|cs| - 1]) else [])
  }

  /**
   The relay's invariant: listed viewers have distinct sockets, numbered below
   `next`, still open and with the (2, 2) shape; only such sockets are ever
   closed; and the bytes written to each socket are the frames, prefix width
   w in byte order `order`, of the payloads sent on it.
   */
  ghost predicate Consistent(w: nat, order: ByteOrder, clients: seq<Client>, next: Conn, closed: set<Conn>,
                             wire: map<Conn, seq<byte>>, sent: map<Conn, seq<seq<byte>>>)
  {
    && DistinctConns(clients)
    && (forall c :: c in clients ==> c.conn < next && c.conn !in closed && c.shape == ClientShape)
    && (forall k :: k in closed ==> k < next)
    && wire.Keys == sent.Keys
    && (forall k :: k in wire ==> PackAll(w, order, sent[k]) == Some(wire[k]))
  }

  /**
   How the relay turns the ingestors' frames into a viewer's packet: the output
   size of every cell, the width and byte order of the length prefix, and
   `dumps`, which stands for `pickle.dumps`.
   */
  datatype Framer = Framer(outputSize: (nat, nat), headerWidth: nat, order: ByteOrder, dumps: Picture -> seq<byte>)

  /** The payload `pickle.dumps(frame)` a viewer of mosaic shape `shape` is
      sent when the ingestors show `frames`: none when `CombineStreams` raises. */
  function PayloadFor(f: Framer, frames: seq<Option<Image>>, shape: (int, int)): seq<seq<byte>>
  {
    match Mosaic(f.outputSize, frames, shape.0, shape.1)
    case None => []
    case Some(pic) => [f.dumps(pic)]
  }

  /** The bytes `struct.pack("L", len(data)) + data` of that payload: None when
      `CombineStreams` or `struct.pack` raises. */
  function PacketFor(f: Framer, frames: seq<Option<Image>>, shape: (int, int)): Option<seq<byte>>
  {
    match Mosaic(f.outputSize, frames, shape.0, shape.1)
    case None => None
    case Some(pic) => Pack(f.headerWidth, f.order, f.dumps(pic))
  }

  function BytesFor(f: Framer, frames: seq<Option<Image>>, c: Client): seq<byte>
  {
    match PacketFor(f, frames, c.shape)
    case None => []
    case Some(b) => b
  }

  /** What each viewer's socket is written, and the payload that carries. */
  function PacketsOf(f: Framer, frames: seq<Option<Image>>): Client -> seq<byte>
  {
    (c: Client) => BytesFor(f, frames, c)
  }

  function PayloadsOf(f: Framer, frames: seq<Option<Image>>): Client -> seq<seq<byte>>
  {
    (c: Client) => PayloadFor(f, frames, c.shape)
  }

  /** Whether sending to viewer c succeeds: its packet exists and its peer takes data. */
  function Delivers(f: Framer, frames: seq<Option<Image>>, reachable: set<Conn>): Client -> bool
  {
    (c: Client) => PacketFor(f, frames, c.shape).Some? && c.conn in reachable
  }

  /**
   The shared state of the relay: `rtsp_clients` and what the sockets have
   done. `RTSP(output_size, streams, ...)` fixes the output size and the
   ingestors; `dumps` stands for `pickle.dumps`, and the frame prefix is
   `headerWidth` bytes in byte order `order`.
   */
  class Server {
    const outputSize: (nat, nat)
    const streams: seq<Ingestor>
    const headerWidth: nat
    const order: ByteOrder
    const dumps: Picture -> seq<byte>

    /** `rtsp_clients`. */
    var clients: seq<Client>
    /** The number `accept` gives the next socket. */
    var nextConn: Conn
    /** The sockets that have been closed. */
    var closed: set<Conn>
    /** The bytes `sendall` has written to each socket. */
    var wire: map<Conn, seq<byte>>
    /** The payloads those bytes frame. */
    ghost var sent: map<Conn, seq<seq<byte>>>

    ghost predicate Valid()
      reads this
    {
      headerWidth > 0 && Consistent(headerWidth, order, clients, nextConn, closed, wire, sent)
    }

    constructor (outputSize: (nat, nat), streams: seq<Ingestor>, headerWidth: nat, order: ByteOrder,
                 dumps: Picture -> seq<byte>)
      requires headerWidth > 0
      ensures Valid()
      ensures this.outputSize == outputSize && this.streams == streams && this.headerWidth == headerWidth
      ensures this.order == order && this.dumps == dumps
      ensures clients == [] && nextConn == 0 && closed == {} && wire == map[] && sent == map[]
    {
      this.outputSize := outputSize;
      this.streams := streams;
      this.headerWidth := headerWidth;
      this.order := order;
      this.dumps := dumps;
      clients := [];
      nextConn := 0;
      closed := {};
      wire := map[];
      sent := map[];
    }


    /** One pass of `RTSPClientLookup.run` (lines 204-207). */
    method Admit(accepted: Option<string>)
      requires Valid()
      modifies this
      ensures Valid()
      ensures clients == Admission(old(clients), old(nextConn), accepted)
      ensures nextConn == old(nextConn) + (|clients| - |old(clients)|)
      ensures closed == old(closed) && wire == old(wire) && sent == old(sent)
    {
      if |clients| <= AdmitLimit {
        if accepted.Some? {
          clients := clients + [Client(nextConn, accepted.value, ClientShape)];
          nextConn := nextConn + 1;
        }
      }
    }

    /** `while self.running` of `RTSPClientLookup.run`, one pass per entry of `attempts`. */
    method Lookup(attempts: seq<Option<string>>)
      requires Valid()
      modifies this
      ensures Valid()
      ensures clients == AdmitAll(old(clients), old(nextConn), attempts)
      ensures nextConn == old(nextConn) + (|clients| - |old(clients)|)
      ensures closed == old(closed) && wire == old(wire) && sent == old(sent)
    {
      var i := 0;
      while i < |attempts|
        invariant 0 <= i <= |attempts| && Valid()
        invariant AdmitAll(old(clients), old(nextConn), attempts) == AdmitAll(clients, nextConn, attempts[i..])
        invariant |old(clients)| <= |clients| && nextConn == old(nextConn) + (|clients| - |old(clients)|)
        invariant closed == old(closed) && wire == old(wire) && sent == old(sent)
      {
        assert attempts[i..][1..] == attempts[i + 1..];
        Admit(attempts[i]);
        i := i + 1;
      }
    }

    /**
     The `try` block for one viewer (lines 179-181): its mosaic, pickled and
     framed, written to its socket; `delivered` is false when `CombineStreams`,
     `struct.pack` or `sendall` raises, and then nothing is written. `w` and
     `st` are the sockets' bytes and payloads so far.
     */
    method SendTo(client: Client, reachable: set<Conn>, w: map<Conn, seq<byte>>, ghost st: map<Conn, seq<seq<byte>>>,
                  ghost frames: seq<Option<Image>>)
      returns (delivered: bool, w': map<Conn, seq<byte>>, ghost st': map<Conn, seq<seq<byte>>>)
      requires frames == Snapshot(streams)
      requires PackAll(headerWidth, order, Written(st, client.conn)) == Some(Written(w, client.conn))
      ensures var f := Framer(outputSize, headerWidth, order, dumps);
        && delivered == Delivers(f, frames, reachable)(client)
        && w' == (if delivered then w[client.conn := Written(w, client.conn) + BytesFor(f, frames, client)] else w)
      ensures var f := Framer(outputSize, headerWidth, order, dumps);
        st' == (if delivered then st[client.conn := Written(st, client.conn) + PayloadFor(f, frames, client.shape)] else st)
      ensures PackAll(headerWidth, order, Written(st', client.conn)) == Some(Written(w', client.conn))
    {
      var frame, _ := CombineStreams(outputSize, client.shape.0, client.shape.1, streams);
      assert frame == Mosaic(outputSize, frames, client.shape.0, client.shape.1);
      delivered, w', st' := false, w, st;
      if frame.Some? {
        var data := dumps(frame.value);
        var packet := Pack(headerWidth, order, data);
        if packet.Some? && client.conn in reachable {
          PackAllSnoc(headerWidth, order, Written(st, client.conn), data);
          w' := w[client.conn := Written(w, client.conn) + packet.value];
          st' := st[client.conn := Written(st, client.conn) + [data]];
          delivered := true;
        }
      }
    }

    /**
     The `for client in rtsp_clients` loop of `RTSP.run` (lines 176-185) run on
     the current state, which it leaves alone: it returns the list as the loop
     leaves it (the kept viewers), the closed sockets (those of the dropped
     viewers added), and the bytes and payloads written to each socket (each
     served viewer's framed mosaic appended). `reachable` holds the sockets
     whose peer still takes data, and `frames` is what the ingestors show.
     */
    method Deliver(reachable: set<Conn>, ghost frames: seq<Option<Image>>)
      returns (cs: seq<Client>, cl: set<Conn>, w: map<Conn, seq<byte>>, ghost st: map<Conn, seq<seq<byte>>>)
      requires Valid() && frames == Snapshot(streams)
      ensures var f := Framer(outputSize, headerWidth, order, dumps);
        var p := Sweep(clients, Delivers(f, frames, reachable));
        && cs == p.kept
        && cl == closed + Conns(p.dropped)
        && w == Appended(wire, p.served, PacketsOf(f, frames))
      ensures var f := Framer(outputSize, headerWidth, order, dumps);
        st == Appended(sent, Sweep(clients, Delivers(f, frames, reachable)).served, PayloadsOf(f, frames))
      ensures Consistent(headerWidth, order, cs, nextConn, cl, w, st)
    {
      ghost var f := Framer(outputSize, headerWidth, order, dumps);
      ghost var delivers := Delivers(f, frames, reachable);
      ghost var bytes := PacketsOf(f, frames);
      ghost var payloads := PayloadsOf(f, frames);
      cs, cl, w, st := clients, closed, wire, sent;
      ghost var rest, served, dropped := clients, [], [];
      var i := 0;
      while i < |cs|
        invariant Midway(headerWidth, order, nextConn, clients, closed, wire, sent, delivers, bytes, payloads,
                         cs, i, rest, served, dropped, cl, w, st)
        decreases |cs| - i + 1
      {
        var client := cs[i];
        ghost var w0, st0 := w, st;
        var delivered;
        delivered, w, st := SendTo(client, reachable, w, st, frames);
        if delivered {
          ServeKeeps(headerWidth, order, nextConn, clients, closed, wire, sent, delivers, bytes, payloads,
                     cs, i, rest, served, dropped, cl, w0, st0, w, st);
          served := served + [client];
          rest := rest[1..];
        } else {
          DropKeeps(headerWidth, order, nextConn, clients, closed, wire, sent, delivers, bytes, payloads,
                    cs, i, rest, served, dropped, cl, w, st);
          cs := RemoveFirst(cs, client);
          cl := cl + {client.conn};
          dropped := dropped + [client];
          rest := if |rest| == 1 then [] else rest[2..];
        }
        i := i + 1;
      }
      FinishStep(clients, delivers, cs, i, rest, served, dropped);
    }

    /** One pass of `RTSP.run`'s broadcast: Deliver's outcome becomes the relay's state. */
    method Broadcast(reachable: set<Conn>)
      requires Valid()
      modifies this
      ensures Valid()
      ensures var f := Framer(outputSize, headerWidth, order, dumps);
        var frames := old(Snapshot(streams));
        var p := Sweep(old(clients), Delivers(f, frames, reachable));
        && clients == p.kept
        && closed == old(closed) + Conns(p.dropped)
        && wire == Appended(old(wire), p.served, PacketsOf(f, frames))
        && sent == Appended(old(sent), p.served, PayloadsOf(f, frames))
      ensures nextConn == old(nextConn)
    {
      ghost var frames := Snapshot(streams);
      var cs, cl, w, st := Deliver(reachable, frames);
      clients, closed, wire, sent := cs, cl, w, st;
    }
  }

  /** Writing a framed payload to a listed viewer's socket keeps the invariant. */
  lemma SentOne(hw: nat, order: ByteOrder, cs: seq<Client>, next: Conn, closed: set<Conn>,
                w: map<Conn, seq<byte>>, st: map<Conn, seq<seq<byte>>>, c: Client, bs: seq<byte>, ps: seq<seq<byte>>)
    requires Consistent(hw, order, cs, next, closed, w, st) && PackAll(hw, order, ps) == Some(bs)
    ensures Consistent(hw, order, cs, next, closed, w[c.conn := bs], st[c.conn := ps])
  {
  }

  /** Removing the listed viewer at index i and closing its socket keeps the invariant. */
  lemma DroppedOne(hw: nat, order: ByteOrder, cs: seq<Client>, next: Conn, closed: set<Conn>,
                   w: map<Conn, seq<byte>>, st: map<Conn, seq<seq<byte>>>, i: nat)
    requires Consistent(hw, order, cs, next, closed, w, st) && i < |cs|
    ensures Consistent(hw, order, cs[..i] + cs[i + 1..], next, closed + {cs[i].conn}, w, st)
  {
    DroppedGone(cs, i);
    assert cs[i] in cs;
  }

  // ---------------------------------------------------------------------------
  // The loop of Broadcast against Sweep.

  /**
   Midway through a pass over `orig`: the list is `cs` and the iterator is at
   index i; `rest`, the part of `orig` not yet reached, is what the list holds
   from index i on; and what the pass does from here completes what it has
   done so far to what it does over `orig`.
   */
  ghost predicate Progress(orig: seq<Client>, delivers: Client -> bool, cs: seq<Client>, i: nat,
                           rest: seq<Client>, served: seq<Client>, dropped: seq<Client>)
  {
    i <= |cs| + 1 && cs[Min(i, |cs|)..] == rest
    && var p := Sweep(rest, delivers);
    Sweep(orig, delivers) == Pass(cs[..Min(i, |cs|)] + p.kept, served + p.served, dropped + p.dropped)
  }

  /** The invariant of Deliver's loop: Consistent, Progress, and the sockets so far. */
  ghost predicate Midway(hw: nat, order: ByteOrder, next: Conn, orig: seq<Client>, closed0: set<Conn>,
                         wire0: map<Conn, seq<byte>>, sent0: map<Conn, seq<seq<byte>>>, delivers: Client -> bool,
                         bytes: Client -> seq<byte>, payloads: Client -> seq<seq<byte>>,
                         cs: seq<Client>, i: nat, rest: seq<Client>, served: seq<Client>, dropped: seq<Client>,
                         cl: set<Conn>, w: map<Conn, seq<byte>>, st: map<Conn, seq<seq<byte>>>)
  {
    && Consistent(hw, order, cs, next, cl, w, st)
    && Progress(orig, delivers, cs, i, rest, served, dropped)
    && cl == closed0 + Conns(dropped)
    && w == Appended(wire0, served, bytes) && st == Appended(sent0, served, payloads)
  }

  /** A served viewer keeps the invariant. */
  lemma ServeKeeps(hw: nat, order: ByteOrder, next: Conn, orig: seq<Client>, closed0: set<Conn>,
                   wire0: map<Conn, seq<byte>>, sent0: map<Conn, seq<seq<byte>>>, delivers: Client -> bool,
                   bytes: Client -> seq<byte>, payloads: Client -> seq<seq<byte>>,
                   cs: seq<Client>, i: nat, rest: seq<Client>, served: seq<Client>, dropped: seq<Client>,
                   cl: set<Conn>, w: map<Conn, seq<byte>>, st: map<Conn, seq<seq<byte>>>,
                   w': map<Conn, seq<byte>>, st': map<Conn, seq<seq<byte>>>)
    requires Midway(hw, order, next, orig, closed0, wire0, sent0, delivers, bytes, payloads, cs, i, rest, served, dropped, cl, w, st)
    requires i < |cs| && delivers(cs[i])
    requires w' == w[cs[i].conn := Written(w, cs[i].conn) + bytes(cs[i])]
    requires st' == st[cs[i].conn := Written(st, cs[i].conn) + payloads(cs[i])]
    requires PackAll(hw, order, Written(st', cs[i].conn)) == Some(Written(w', cs[i].conn))
    ensures rest != [] && rest[0] == cs[i]
    ensures Midway(hw, order, next, orig, closed0, wire0, sent0, delivers, bytes, payloads,
                   cs, i + 1, rest[1..], served + [cs[i]], dropped, cl, w', st')
  {
    ServeStep(orig, delivers, cs, i, rest, served, dropped);
    assert cs[i] in cs;
    SentOne(hw, order, cs, next, cl, w, st, cs[i], Written(w', cs[i].conn), Written(st', cs[i].conn));
    AppendedStep(wire0, served, bytes, cs[i]);
    AppendedStep(sent0, served, payloads, cs[i]);
  }

  /** A dropped viewer, removed from the list and its socket closed, keeps the invariant. */
  lemma DropKeeps(hw: nat, order: ByteOrder, next: Conn, orig: seq<Client>, closed0: set<Conn>,
                  wire0: map<Conn, seq<byte>>, sent0: map<Conn, seq<seq<byte>>>, delivers: Client -> bool,
                  bytes: Client -> seq<byte>, payloads: Client -> seq<seq<byte>>,
                  cs: seq<Client>, i: nat, rest: seq<Client>, served: seq<Client>, dropped: seq<Client>,
                  cl: set<Conn>, w: map<Conn, seq<byte>>, st: map<Conn, seq<seq<byte>>>)
    requires Midway(hw, order, next, orig, closed0, wire0, sent0, delivers, bytes, payloads, cs, i, rest, served, dropped, cl, w, st)
    requires i < |cs| && !delivers(cs[i])
    ensures rest != [] && rest[0] == cs[i]
    ensures Midway(hw, order, next, orig, closed0, wire0, sent0, delivers, bytes, payloads,
                   RemoveFirst(cs, cs[i]), i + 1, if |rest| == 1 then [] else rest[2..], served, dropped + [cs[i]],
                   cl + {cs[i].conn}, w, st)
  {
    DropStep(orig, delivers, cs, i, rest, served, dropped);
    RemoveAt(cs, i);
    DroppedOne(hw, order, cs, next, cl, w, st, i);
    ConnsStep(dropped, cs[i]);
  }

  lemma ServeStep(orig: seq<Client>, delivers: Client -> bool, cs: seq<Client>, i: nat,
                  rest: seq<Client>, served: seq<Client>, dropped: seq<Client>)
    requires Progress(orig, delivers, cs, i, rest, served, dropped) && i < |cs| && delivers(cs[i])
    ensures rest != [] && rest[0] == cs[i]
    ensures Progress(orig, delivers, cs, i + 1, rest[1..], served + [cs[i]], dropped)
  {
    assert rest == [cs[i]] + rest[1..];
    assert cs[..i + 1] == cs[..i] + [cs[i]];
    var q := Sweep(rest[1..], delivers);
    AppendAssoc(cs[..i], [cs[i]], q.kept);
    AppendAssoc(served, [cs[i]], q.served);
  }

  lemma DropStep(orig: seq<Client>, delivers: Client -> bool, cs: seq<Client>, i: nat,
                 rest: seq<Client>, served: seq<Client>, dropped: seq<Client>)
    requires Progress(orig, delivers, cs, i, rest, served, dropped) && i < |cs| && !delivers(cs[i])
    ensures rest != [] && rest[0] == cs[i]
    ensures Progress(orig, delivers, cs[..i] + cs[i + 1..], i + 1, if |rest| == 1 then [] else rest[2..],
                     served, dropped + [cs[i]])
  {
    var cs' := cs[..i] + cs[i + 1..];
    assert rest == [cs[i]] + rest[1..];
    assert cs'[..i] == cs[..i];
    if |rest| == 1 {
      assert cs' == cs[..i];
      AppendAssoc(dropped, [cs[i]], []);
    } else {
      assert cs'[..i + 1] == cs[..i] + [rest[1]];
      assert cs'[i + 1..] == rest[2..];
      var q := Sweep(rest[2..], delivers);
      AppendAssoc(cs[..i], [rest[1]], q.kept);
      AppendAssoc(dropped, [cs[i]], q.dropped);
    }
  }

  lemma FinishStep(orig: seq<Client>, delivers: Client -> bool, cs: seq<Client>, i: nat,
                   rest: seq<Client>, served: seq<Client>, dropped: seq<Client>)
    requires Progress(orig, delivers, cs, i, rest, served, dropped) && i >= |cs|
    ensures Sweep(orig, delivers) == Pass(cs, served, dropped)
  {
    assert cs[..|cs|] == cs;
  }

  lemma AppendedStep<T>(m: map<Conn, seq<T>>, cs: seq<Client>, f: Client -> seq<T>, c: Client)
    ensures var before := Appended(m, cs, f);
      Appended(m, cs + [c], f) == before[c.conn := Written(before, c.conn) + f(c)]
  {
    assert (cs + [c])[..|cs|] == cs;
  }

  lemma ConnsStep(cs: seq<Client>, c: Client)
    ensures Conns(cs + [c]) == Conns(cs) + {c.conn}
  {
    assert forall x :: x in cs + [c] <==> x in cs || x == c;
  }

  lemma DroppedGone(cs: seq<Client>, i: nat)
    requires DistinctConns(cs) && i < |cs|
    ensures DistinctConns(cs[..i] + cs[i + 1..])
    ensures forall c :: c in cs[..i] + cs[i + 1..] ==> c in cs && c.conn != cs[i].conn
  {
    var r := cs[..i] + cs[i + 1..];
    forall a, b | 0 <= a < b < |r|
      ensures r[a].conn != r[b].conn
    {
      var a', b' := if a < i then a else a + 1, if b < i then b else b + 1;
      assert r[a] == cs[a'] && r[b] == cs[b'];
    }
    forall c | c in r
      ensures c in cs && c.conn != cs[i].conn
    {
      var k :| 0 <= k < |r| && r[k] == c;
      var k' := if k < i then k else k + 1;
      assert cs[k'] == c && k' != i;
    }
  }

  // ---------------------------------------------------------------------------
  // What a viewer sees.

  /**
   When every ingestor's `read()` returns a frame of the output size, a
   (2, 2) viewer's send succeeds exactly when the output size has no zero
   component (the final resize raises otherwise), its pickled (2, 2) mosaic
   is short enough for the length prefix, and its peer still takes data.
   */
  lemma DropReasons(f: Framer, frames: seq<Option<Image>>, reachable: set<Conn>, c: Client)
    requires Uniform(f.outputSize, frames) && c.shape == ClientShape
    ensures Delivers(f, frames, reachable)(c) <==>
      f.outputSize.0 > 0 && f.outputSize.1 > 0
      && |f.dumps(Picture(Grid(frames, 2, 2), f.outputSize.1, f.outputSize.0))| < Capacity(f.headerWidth)
      && c.conn in reachable
  {
    UniformComposite(f.outputSize, frames, 2, 2);
  }

  /**
   A viewer that reads its socket with `recv` (the script need not cut the
   stream where the frames end) unpickles exactly the payloads the relay sent
   it, in order, and ends when the relay stops sending.
   */
  lemma ViewerGetsWhatWasSent(hw: nat, order: ByteOrder, cs: seq<Client>, next: Conn, closed: set<Conn>,
                              wire: map<Conn, seq<byte>>, sent: map<Conn, seq<seq<byte>>>, k: Conn,
                              unpickle: seq<byte> -> Option<(nat, nat)>, script: seq<Recv>)
    requires hw > 0 && Consistent(hw, order, cs, next, closed, wire, sent) && k in wire
    requires Flat(script) == wire[k] && Clean(script)
    requires forall i :: 0 <= i < |sent[k]| ==> unpickle(sent[k][i]).Some?
    ensures Session(hw, order, unpickle, [], script) == Trace(sent[k], Dropped)
  {
    assert [] + Flat(script) == Flat(script);
    SessionDeliversAll(hw, order, unpickle, [], script, sent[k]);
  }
}
