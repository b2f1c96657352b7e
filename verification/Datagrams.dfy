/** The client's datagram loop, `ReadRespUDP`. */
module Datagrams {
  import opened Wire
  import opened Reassembler
  import opened Runs
  import opened Collector
  import opened Delivery
  import opened Channels
  import opened Transport
  import opened Receivers
  import opened Server
  import opened StreamDelivery
  import opened Copies

  /** The frames among the received datagrams: those shorter than a frame are
      skipped, of a longer one only the start fits into the buffer. */
  ghost function FramesAmong(g: Geometry, datagrams: seq<Bytes>): seq<Bytes> {
    if datagrams == [] then []
    else
      var z := |datagrams| - 1;
      FramesAmong(g, datagrams[..z]) +
      if |datagrams[z]| < g.totalSize then [] else [datagrams[z][..g.totalSize]]
  }

  lemma FramesAmongSnoc(g: Geometry, datagrams: seq<Bytes>, d: Bytes)
    ensures FramesAmong(g, datagrams + [d]) ==
            FramesAmong(g, datagrams) + if |d| < g.totalSize then [] else [d[..g.totalSize]]
  {
    assert (datagrams + [d])[..|datagrams|] == datagrams;
  }

  lemma {:induction false} FramesAmongStart(g: Geometry, datagrams: seq<Bytes>, n: nat)
    requires n <= |datagrams|
    ensures FramesAmong(g, datagrams[..n]) <= FramesAmong(g, datagrams)
  {
    if n == |datagrams| {
      assert datagrams[..n] == datagrams;
    } else {
      FramesAmongStart(g, datagrams[..|datagrams| - 1], n);
      assert datagrams[..|datagrams| - 1][..n] == datagrams[..n];
    }
  }

  /** One round of the loop. */
  method ReadDatagram(g: Geometry, datagram: Bytes, pool: BufferPool, node: NodeConn) returns (end: End)
    requires pool.Valid() && pool.size == g.totalSize && Apart(pool, node)
    requires node.Valid() && node.loop == Running
    modifies pool, pool.free, node, node.list.Values
    ensures node.Valid() && fresh(node.list.Values - old(node.list.Values))
    ensures pool.Valid() && fresh(pool.free - old(pool.free))
    ensures Apart(pool, node)
    ensures old(node.memory.Keys) <= node.memory.Keys && fresh(node.memory.Keys - old(node.memory.Keys))
    ensures |datagram| < g.totalSize ==> end == Fine && node.View() == old(node.View())
    ensures |datagram| >= g.totalSize ==>
              var (next, r) := Receive(old(node.View()), Parse(g, datagram[..g.totalSize]));
              node.View() == next && end == EndOf(r)
    ensures end == Fine ==> node.loop == Running
  {
    hide NodeConn.Valid, BufferPool.Valid, Receive, Parse;
    end := Fine;
    var buff, num := NextDatagram(pool, datagram);
    if num == g.totalSize {
      end := HandleBuffer(g, buff, pool, node);
    } else {
      pool.Put(buff);
    }
  }

  /** The loop handles exactly the frames among its datagrams, in order. It ends
      with the socket, or with the first frame that panics, or it blocks in a send
      at the first frame whose box is full. As on TCP, no pooled buffer is memory
      of a payload, and stored payloads keep their bytes. */
  method ReadRespUDP(g: Geometry, datagrams: seq<Bytes>, pool: BufferPool, node: NodeConn) returns (end: End)
    requires pool.Valid() && pool.size == g.totalSize && Apart(pool, node)
    requires node.Valid() && node.loop == Running
    modifies pool, pool.free, node, node.list.Values
    ensures LoopEnds(old(node.View()), ParseAll(g, FramesAmong(g, datagrams)), end, node.View())
    ensures node.Valid() && pool.Valid() && Apart(pool, node)
    ensures old(node.memory.Keys) <= node.memory.Keys
    ensures forall a :: a in old(node.memory) ==> a[..] == old(a[..])
  {
    hide NodeConn.Valid, BufferPool.Valid, GetsThrough, Receive, Parse;
    end := Fine;
    ghost var s := node.View();
    NothingRead(g, s);
    for i := 0 to |datagrams|
      invariant end == Fine && pool.Valid() && node.Valid() && node.loop == Running && Apart(pool, node)
      invariant old(node.memory.Keys) <= node.memory.Keys && fresh(node.memory.Keys - old(node.memory.Keys))
      invariant fresh(pool.free - old(pool.free))
      invariant fresh(node.list.Values - old(node.list.Values))
      invariant GetsThrough(s, ParseAll(g, FramesAmong(g, datagrams[..i])))
      invariant node.View() == After(Receive, s, ParseAll(g, FramesAmong(g, datagrams[..i])))
    {
      end := ReadDatagram(g, datagrams[i], pool, node);
      NextFrames(g, s, datagrams, i);
      if end != Fine {
        return;
      }
    }
    assert datagrams[..|datagrams|] == datagrams;
  }

  /** The frames of one more datagram, and what handling them does. */
  lemma NextFrames(g: Geometry, s: ConnState, datagrams: seq<Bytes>, i: nat)
    requires i < |datagrams| && GetsThrough(s, ParseAll(g, FramesAmong(g, datagrams[..i])))
    ensures var was, next := FramesAmong(g, datagrams[..i]), FramesAmong(g, datagrams[..i + 1]);
            if |datagrams[i]| < g.totalSize then next == was
            else
              var (s', r) := Receive(After(Receive, s, ParseAll(g, was)), Parse(g, datagrams[i][..g.totalSize]));
              && After(Receive, s, ParseAll(g, next)) == s'
              && (GetsThrough(s, ParseAll(g, next)) <==> EndOf(r) == Fine)
              && (EndOf(r) != Fine ==> LoopEnds(s, ParseAll(g, FramesAmong(g, datagrams)), EndOf(r), s'))
  {
    hide Parse, Receive, GetsThrough, LoopEnds;
    PrefixSnoc(datagrams, i);
    FramesAmongSnoc(g, datagrams[..i], datagrams[i]);
    if |datagrams[i]| >= g.totalSize {
      var was, f := FramesAmong(g, datagrams[..i]), datagrams[i][..g.totalSize];
      ReceiveSnoc(g, s, was, f);
      FramesAmongStart(g, datagrams, i + 1);
      var all := FramesAmong(g, datagrams);
      var rest := all[|was| + 1..];
      assert all == was + [f] + rest;
      EndsWith(g, s, was, f, rest);
    }
  }

  /** Datagrams that carry frames of the replies `ms`, some perhaps lost, none
      twice, in any order, with any short datagrams in between, do on UDP what the
      stream does on TCP. */
  lemma DatagramsDeliver(g: Geometry, ms: Traffic, s: ConnState, toks: seq<Token>, datagrams: seq<Bytes>)
    requires WellFormed(g, ms) && OnceEach(g, ms, toks) && s.st.Keys !! ms.Keys
    requires Ready(ms, s.rc) && s.loop == Running
    requires FramesAmong(g, datagrams) == Frames(g, ms, toks)
    ensures var ps := ParseAll(g, FramesAmong(g, datagrams));
            var end := After(Receive, s, ps);
            && GetsThrough(s, ps) && end.loop == Running
            && Tidy(g, ms, toks, s.st, end.st)
            && forall num :: num in ms ==> BoxFilled(g, ms, toks, num, s.rc, end.rc)
  {
    FramesDeliver(g, ms, s, toks);
  }

  /** Datagrams may also be repeated. The loop then blocks exactly if some box
      overflows; it never panics; and wherever it ends, boxes hold nothing but
      copies of their own replies. */
  lemma RepeatedDatagrams(
    g: Geometry, ms: Traffic, s: ConnState, toks: seq<Token>, datagrams: seq<Bytes>, end: End, final: ConnState)
    requires WellFormed(g, ms) && AllHonest(g, ms, toks) && s.st.Keys !! ms.Keys
    requires OwnState(ms, s) && Bounded(s.rc) && s.loop == Running
    requires FramesAmong(g, datagrams) == Frames(g, ms, toks)
    requires LoopEnds(s, ParseAll(g, FramesAmong(g, datagrams)), end, final)
    ensures end == if NoOverflow(g, ms, s.rc, toks) then Fine else Stalled
    ensures OwnState(ms, final)
  {
    hide NoOverflow, WellFormed, Receive, OwnState, Parse, FrameOf;
    GetsThroughExactly(g, ms, s, toks);
    var n := EndIndex(s, ParseAll(g, Frames(g, ms, toks)), end, final);
    PrefixOwn(g, ms, s, toks, n);
  }

  /** The frames that were handled when a loop ends. */
  lemma EndIndex(s: ConnState, ps: seq<Parsed>, end: End, final: ConnState) returns (n: nat)
    requires LoopEnds(s, ps, end, final)
    requires forall t :: 0 <= t < |ps| ==> OutAt(Receive, s, ps, t) != Panic
    ensures n <= |ps| && final == After(Receive, s, ps[..n])
    ensures end == if GetsThrough(s, ps) then Fine else Stalled
  {
    hide Receive, After;
    if end == Fine {
      n := |ps|;
      assert ps[..n] == ps;
    } else {
      var t: nat :| EndsAt(s, ps, t, end, final);
      n := t + 1;
    }
  }

  lemma PrefixOwn(g: Geometry, ms: Traffic, s: ConnState, toks: seq<Token>, n: nat)
    requires WellFormed(g, ms) && AllHonest(g, ms, toks) && s.st.Keys !! ms.Keys && OwnState(ms, s) && n <= |toks|
    ensures OwnState(ms, After(Receive, s, ParseAll(g, Frames(g, ms, toks))[..n]))
  {
    hide WellFormed, Receive, OwnState, Parse, FrameOf, ClientStep;
    var frames := Frames(g, ms, toks[..n]);
    assert ParseAll(g, Frames(g, ms, toks))[..n] == ParseAll(g, frames);
    LoopIsRun(g, s, frames);
    BoxesHoldOnlyOwn(g, ms, s, ArriveAll(frames), toks[..n]);
  }
}
