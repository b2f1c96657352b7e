/** The receive loops around `ParseResp`. */
module Receivers {
  import opened Wire
  import opened Reassembler
  import opened Runs
  import opened Collector
  import opened Transport

  /** How handling a frame ends for the loop: it goes on, the process panics, or the
      loop blocks in a send. */
  datatype End = Fine | Crashed | Stalled

  function EndOf(r: Resp): End {
    match r
    case Resp(_, _, _, _) => Fine
    case Panic => Crashed
    case Blocked => Stalled
  }

  /** A loop gets through all of these frames. */
  ghost predicate GetsThrough(s: ConnState, ps: seq<Parsed>) {
    forall t :: 0 <= t < |ps| ==> EndOf(OutAt(Receive, s, ps, t)) == Fine
  }

  /** The loop gets through the frames before the t-th and ends with that. */
  ghost predicate EndsAt(s: ConnState, ps: seq<Parsed>, t: nat, end: End, final: ConnState) {
    && t < |ps| && GetsThrough(s, ps[..t])
    && EndOf(OutAt(Receive, s, ps, t)) == end != Fine
    && final == After(Receive, s, ps[..t + 1])
  }

  /** What becomes of a loop that is given these frames and nothing after them. */
  ghost predicate LoopEnds(s: ConnState, ps: seq<Parsed>, end: End, final: ConnState) {
    if end == Fine then GetsThrough(s, ps) && final == After(Receive, s, ps)
    else exists t: nat :: EndsAt(s, ps, t, end, final)
  }

  lemma NothingRead(g: Geometry, s: ConnState)
    ensures GetsThrough(s, ParseAll(g, [])) && After(Receive, s, ParseAll(g, [])) == s
  {
  }

  lemma GetsThroughSnoc(s: ConnState, ps: seq<Parsed>, p: Parsed)
    ensures After(Receive, s, ps + [p]) == Receive(After(Receive, s, ps), p).0
    ensures GetsThrough(s, ps + [p]) <==>
              GetsThrough(s, ps) && EndOf(Receive(After(Receive, s, ps), p).1) == Fine
  {
    RunSnoc(Receive, s, ps, p);
    assert OutAt(Receive, s, ps + [p], |ps|) == Receive(After(Receive, s, ps), p).1;
    assert GetsThrough(s, ps + [p]) ==>
        forall t :: 0 <= t < |ps| ==> OutAt(Receive, s, ps, t) == OutAt(Receive, s, ps + [p], t);
  }

  lemma ParseAllSnoc(g: Geometry, frames: seq<Bytes>, f: Bytes)
    ensures ParseAll(g, frames + [f]) == ParseAll(g, frames) + [Parse(g, f)]
  {
  }

  /** A frame that ends the loop, whatever would have followed. */
  lemma EndsWith(g: Geometry, s: ConnState, frames: seq<Bytes>, f: Bytes, rest: seq<Bytes>)
    requires GetsThrough(s, ParseAll(g, frames))
    ensures var (next, r) := Receive(After(Receive, s, ParseAll(g, frames)), Parse(g, f));
            EndOf(r) != Fine ==> LoopEnds(s, ParseAll(g, frames + [f] + rest), EndOf(r), next)
  {
    var ps, all := ParseAll(g, frames), ParseAll(g, frames + [f] + rest);
    var t := |frames|;
    assert all[..t] == ps && all[..t + 1] == ps + [Parse(g, f)] && all[t] == Parse(g, f);
    var (next, r) := Receive(After(Receive, s, ps), Parse(g, f));
    hide Receive, Parse;
    RunSnoc(Receive, s, ps, Parse(g, f));
    if EndOf(r) != Fine {
      assert EndsAt(s, all, t, EndOf(r), next);
    }
  }

  lemma ReceiveSnoc(g: Geometry, s: ConnState, frames: seq<Bytes>, f: Bytes)
    requires GetsThrough(s, ParseAll(g, frames))
    ensures var now := After(Receive, s, ParseAll(g, frames));
            var (next, r) := Receive(now, Parse(g, f));
            && After(Receive, s, ParseAll(g, frames + [f])) == next
            && (GetsThrough(s, ParseAll(g, frames + [f])) <==> EndOf(r) == Fine)
  {
    ParseAllSnoc(g, frames, f);
    GetsThroughSnoc(s, ParseAll(g, frames), Parse(g, f));
  }

  /** One frame in a client's read loop. */
  method HandleFrame(g: Geometry, frame: array<byte>, node: NodeConn) returns (end: End)
    requires node.Valid() && node.loop == Running
    modifies node, node.list.Values
    ensures node.Valid() && fresh(node.list.Values - old(node.list.Values))
    ensures old(node.memory.Keys) <= node.memory.Keys && fresh(node.memory.Keys - old(node.memory.Keys))
    ensures var (next, r) := Receive(old(node.View()), Parse(g, frame[..])); node.View() == next && end == EndOf(r)
    ensures end == Fine ==> node.loop == Running
  {
    hide Parse, Feed, NodeConn.Tabled, NodeConn.Stored, NodeConn.Boxed;
    var r := node.ParseResp(g, frame);
    if r.Panicked? {
      return Crashed;
    }
    var blocked := node.Deliver(r);
    end := if blocked then Stalled else Fine;
  }

  /** The end of a round: the frame is handled and its buffer goes back, unless the
      loop does not get that far. */
  method HandleBuffer(g: Geometry, buff: array<byte>, pool: BufferPool, node: NodeConn) returns (end: End)
    requires pool.Valid() && buff.Length == pool.size && buff !in pool.free && node.Valid() && node.loop == Running
    requires Apart(pool, node) && buff !in node.memory
    modifies pool, buff, node, node.list.Values
    ensures node.Valid() && fresh(node.list.Values - old(node.list.Values))
    ensures pool.Valid() && pool.free == if end == Fine then old(pool.free) + {buff} else old(pool.free)
    ensures Apart(pool, node)
    ensures old(node.memory.Keys) <= node.memory.Keys && fresh(node.memory.Keys - old(node.memory.Keys))
    ensures var (next, r) := Receive(old(node.View()), Parse(g, old(buff[..]))); node.View() == next && end == EndOf(r)
    ensures end == Fine ==> node.loop == Running
  {
    hide NodeConn.Valid;
    end := HandleFrame(g, buff, node);
    if end == Fine {
      pool.Put(buff);
    }
  }

  /** Takes a buffer and fills it; at the end of the stream it goes back. */
  method NextFrame(conn: TcpConn, pool: BufferPool) returns (ok: bool, buff: array<byte>)
    requires pool.Valid() && pool.size > 0
    modifies conn, pool, pool.free
    ensures pool.Valid() && fresh(pool.free - old(pool.free))
    ensures ok <==> |old(conn.stream)| >= pool.size
    ensures ok ==> buff.Length == pool.size && buff !in pool.free && (fresh(buff) || buff in old(pool.free))
    ensures ok ==> buff[..] == old(conn.stream)[..pool.size] && conn.stream == old(conn.stream)[pool.size..]
    ensures !ok ==> conn.stream == []
  {
    buff := pool.Get();
    ok := FillFrame(conn, buff);
    if !ok {
      pool.Put(buff);
    }
  }

  /** One round of `ReadRespTCP`. */
  method ReadOne(g: Geometry, conn: TcpConn, pool: BufferPool, node: NodeConn) returns (ok: bool, end: End)
    requires pool.Valid() && pool.size == g.totalSize && Apart(pool, node)
    requires node.Valid() && node.loop == Running
    modifies conn, pool, pool.free, node, node.list.Values
    ensures ok <==> |old(conn.stream)| >= g.totalSize
    ensures node.Valid() && fresh(node.list.Values - old(node.list.Values))
    ensures pool.Valid() && fresh(pool.free - old(pool.free))
    ensures Apart(pool, node)
    ensures old(node.memory.Keys) <= node.memory.Keys && fresh(node.memory.Keys - old(node.memory.Keys))
    ensures !ok ==> end == Fine && conn.stream == [] && node.View() == old(node.View())
    ensures ok ==>
              var (next, r) := Receive(old(node.View()), Parse(g, old(conn.stream)[..g.totalSize]));
              conn.stream == old(conn.stream)[g.totalSize..] && node.View() == next && end == EndOf(r)
    ensures end == Fine ==> node.loop == Running
  {
    hide NodeConn.Valid, BufferPool.Valid;
    end := Fine;
    var buff;
    ok, buff := NextFrame(conn, pool);
    if ok {
      end := HandleBuffer(g, buff, pool, node);
    }
  }

  lemma DeframeStep(g: Geometry, frames: seq<Bytes>, data: Bytes)
    requires |data| >= g.totalSize
    ensures frames + Deframe(g, data) == (frames + [data[..g.totalSize]]) + Deframe(g, data[g.totalSize..])
  {
  }

  /** `ReadRespTCP`. However the network chunks the stream, the loop handles
      exactly its frames, in order. It ends with the stream, or with the first
      frame that panics, or it blocks in a send at the first frame whose box is
      full. Every buffer that goes back to the pool is zeroed, and none of them is
      memory a payload is stored in: whatever was stored or delivered before, and
      whatever the loop stores and delivers, still holds its bytes at the end. */
  method ReadRespTCP(g: Geometry, conn: TcpConn, pool: BufferPool, node: NodeConn) returns (end: End)
    requires pool.Valid() && pool.size == g.totalSize && Apart(pool, node)
    requires node.Valid() && node.loop == Running
    modifies conn, pool, pool.free, node, node.list.Values
    ensures LoopEnds(old(node.View()), ParseAll(g, Deframe(g, old(conn.stream))), end, node.View())
    ensures end == Fine ==> conn.stream == []
    ensures node.Valid() && pool.Valid() && Apart(pool, node)
    ensures old(node.memory.Keys) <= node.memory.Keys
    ensures forall a :: a in old(node.memory) ==> a[..] == old(a[..])
  {
    hide NodeConn.Valid, BufferPool.Valid, GetsThrough, Receive, Parse;
    end := Fine;
    var ok := true;
    ghost var s := node.View();
    ghost var frames: seq<Bytes> := [];
    ghost var all := Deframe(g, conn.stream);
    NothingRead(g, s);
    while ok
      invariant end == Fine && pool.Valid() && node.Valid() && node.loop == Running && Apart(pool, node)
      invariant old(node.memory.Keys) <= node.memory.Keys && fresh(node.memory.Keys - old(node.memory.Keys))
      invariant fresh(pool.free - old(pool.free))
      invariant fresh(node.list.Values - old(node.list.Values))
      invariant frames + Deframe(g, conn.stream) == all
      invariant GetsThrough(s, ParseAll(g, frames))
      invariant node.View() == After(Receive, s, ParseAll(g, frames))
      invariant !ok ==> conn.stream == []
      decreases ok, |conn.stream|
    {
      ghost var data := conn.stream;
      ok, end := ReadOne(g, conn, pool, node);
      if ok {
        DeframeStep(g, frames, data);
        EndsWith(g, s, frames, data[..g.totalSize], Deframe(g, conn.stream));
        ReceiveSnoc(g, s, frames, data[..g.totalSize]);
        frames := frames + [data[..g.totalSize]];
        if end != Fine {
          return;
        }
      }
    }
    assert frames == all;
  }
}
