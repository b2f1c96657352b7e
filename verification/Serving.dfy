/** The server's TCP loop: from the bytes of a connection to the rows written back. */
module Serving {
  import opened Wire
  import opened Reassembler
  import opened Runs
  import opened Collector
  import opened Delivery
  import opened Transport
  import opened Receivers
  import opened Server
  import opened RoundTrip
  import opened StreamDelivery

  /** The rows written for a run of frames. */
  ghost function Answers(g: Geometry, handler: Handler, st: Partials, ps: seq<Parsed>): seq<Bytes> {
    if ps == [] then []
    else
      var z := |ps| - 1;
      Answers(g, handler, st, ps[..z]) + Answer(g, handler, OutAt(Feed, st, ps, z))
  }

  ghost predicate NoPanic(st: Partials, ps: seq<Parsed>) {
    forall t :: 0 <= t < |ps| ==> OutAt(Feed, st, ps, t) != Panic
  }

  lemma AnswersSnoc(g: Geometry, handler: Handler, st: Partials, frames: seq<Bytes>, f: Bytes)
    ensures var ps := ParseAll(g, frames);
            var all := ParseAll(g, frames + [f]);
            var (st', r) := Feed(After(Feed, st, ps), Parse(g, f));
            && After(Feed, st, all) == st'
            && Answers(g, handler, st, all) == Answers(g, handler, st, ps) + Answer(g, handler, r)
            && (NoPanic(st, all) <==> NoPanic(st, ps) && r != Panic)
  {
    var ps := ParseAll(g, frames);
    ParseAllSnoc(g, frames, f);
    hide Feed, Parse, Answer;
    RunSnoc(Feed, st, ps, Parse(g, f));
    var all := ps + [Parse(g, f)];
    assert all[..|ps|] == ps;
    assert OutAt(Feed, st, all, |ps|) == Feed(After(Feed, st, ps), Parse(g, f)).1;
    assert NoPanic(st, all) ==> forall t :: 0 <= t < |ps| ==> OutAt(Feed, st, ps, t) == OutAt(Feed, st, all, t);
  }

  lemma PanicRemains(g: Geometry, st: Partials, frames: seq<Bytes>, rest: seq<Bytes>)
    requires !NoPanic(st, ParseAll(g, frames))
    ensures !NoPanic(st, ParseAll(g, frames + rest))
  {
    var ps, all := ParseAll(g, frames), ParseAll(g, frames + rest);
    var t :| 0 <= t < |ps| && OutAt(Feed, st, ps, t) == Panic;
    assert all[..t] == ps[..t] && all[t] == ps[t];
    assert OutAt(Feed, st, all, t) == Panic;
  }

  /** One round of `tcpAccept`. */
  method ServeOne(g: Geometry, conn: TcpConn, pool: BufferPool, nc: NodeConn, handler: Handler)
    returns (ok: bool, rows: seq<Bytes>, panicked: bool)
    requires pool.Valid() && pool.size == g.totalSize && nc.Valid() && Apart(pool, nc)
    modifies conn, pool, pool.free, nc`list, nc`partial, nc`memory, nc.list.Values
    ensures ok <==> |old(conn.stream)| >= g.totalSize
    ensures nc.Valid() && fresh(nc.list.Values - old(nc.list.Values))
    ensures pool.Valid() && fresh(pool.free - old(pool.free))
    ensures Apart(pool, nc)
    ensures old(nc.memory.Keys) <= nc.memory.Keys && fresh(nc.memory.Keys - old(nc.memory.Keys))
    ensures !ok ==> !panicked && conn.stream == [] && rows == [] && nc.partial == old(nc.partial)
    ensures ok ==>
              var (st', r) := Feed(old(nc.partial), Parse(g, old(conn.stream)[..g.totalSize]));
              && conn.stream == old(conn.stream)[g.totalSize..]
              && nc.partial == st' && rows == Answer(g, handler, r) && (panicked <==> r == Panic)
  {
    hide NodeConn.Valid, BufferPool.Valid, Feed, Parse, Answer;
    rows, panicked := [], false;
    var buff;
    ok, buff := NextFrame(conn, pool);
    if ok {
      rows, panicked := ParseRspByte(g, nc, buff, handler);
      if !panicked {
        pool.Put(buff);
      }
    }
  }

  /** `tcpAccept`, one frame at a time. However the network chunks the requests, the
      rows written are the answers to its frames in order, up to the end of the
      stream or the first panic. */
  method ServeStream(g: Geometry, conn: TcpConn, pool: BufferPool, nc: NodeConn, handler: Handler)
    returns (written: seq<Bytes>, panicked: bool)
    requires pool.Valid() && pool.size == g.totalSize && nc.Valid() && Apart(pool, nc)
    modifies conn, pool, pool.free, nc`list, nc`partial, nc`memory, nc.list.Values
    ensures nc.Valid() && pool.Valid() && Apart(pool, nc)
    ensures var ps := ParseAll(g, Deframe(g, old(conn.stream)));
            && (panicked <==> !NoPanic(old(nc.partial), ps))
            && (!panicked ==>
                  && conn.stream == [] && nc.partial == After(Feed, old(nc.partial), ps)
                  && written == Answers(g, handler, old(nc.partial), ps))
    ensures forall a :: a in old(nc.memory) ==> a[..] == old(a[..])
  {
    hide NodeConn.Valid, BufferPool.Valid, Feed, Parse, Answer;
    written, panicked := [], false;
    var ok := true;
    ghost var st := nc.partial;
    ghost var frames: seq<Bytes> := [];
    ghost var all := Deframe(g, conn.stream);
    while ok
      invariant !panicked && pool.Valid() && nc.Valid() && Apart(pool, nc)
      invariant old(nc.memory.Keys) <= nc.memory.Keys && fresh(nc.memory.Keys - old(nc.memory.Keys))
      invariant fresh(pool.free - old(pool.free))
      invariant fresh(nc.list.Values - old(nc.list.Values))
      invariant frames + Deframe(g, conn.stream) == all
      invariant NoPanic(st, ParseAll(g, frames)) && nc.partial == After(Feed, st, ParseAll(g, frames))
      invariant written == Answers(g, handler, st, ParseAll(g, frames))
      invariant !ok ==> conn.stream == []
      decreases ok, |conn.stream|
    {
      ghost var data := conn.stream;
      var rows;
      ok, rows, panicked := ServeOne(g, conn, pool, nc, handler);
      if ok {
        DeframeStep(g, frames, data);
        AnswersSnoc(g, handler, st, frames, data[..g.totalSize]);
        frames := frames + [data[..g.totalSize]];
        written := written + rows;
        if panicked {
          PanicRemains(g, st, frames, Deframe(g, conn.stream));
          return;
        }
      }
    }
    assert frames == all;
  }

  lemma {:induction false} AnswersAreRows(
    g: Geometry, ms: Traffic, st: Partials, up: seq<Token>, handler: Handler, n: nat)
    requires WellFormed(g, ms) && AllHonest(g, ms, up) && n <= |up|
    ensures Answers(g, handler, st, ParseAll(g, Frames(g, ms, up))[..n]) == Joined(Rows(g, ms, st, up, handler), n)
  {
    if n > 0 {
      hide Feed, Parse, Answer, FrameOf, WellFormed, OutAt, Answers;
      AnswersAreRows(g, ms, st, up, handler, n - 1);
      AnswersNext(g, handler, st, ParseAll(g, Frames(g, ms, up)), n - 1);
    } else {
      NoAnswers(g, handler, st, ParseAll(g, Frames(g, ms, up)));
    }
  }

  lemma AnswersNext(g: Geometry, handler: Handler, st: Partials, ps: seq<Parsed>, n: nat)
    requires n < |ps|
    ensures Answers(g, handler, st, ps[..n + 1])
         == Answers(g, handler, st, ps[..n]) + Answer(g, handler, OutAt(Feed, st, ps, n))
  {
    hide Feed, Answer;
    assert ps[..n + 1][..n] == ps[..n];
  }

  lemma NoAnswers(g: Geometry, handler: Handler, st: Partials, ps: seq<Parsed>)
    ensures Answers(g, handler, st, ps[..0]) == []
  {
  }

  lemma HonestRequests(g: Geometry, ms: Traffic, st: Partials, up: seq<Token>)
    requires WellFormed(g, ms) && AllHonest(g, ms, up) && st.Keys !! ms.Keys
    ensures NoPanic(st, ParseAll(g, Frames(g, ms, up)))
  {
    hide Feed, Parse, FrameOf, WellFormed, OutAt;
    var ps := ParseAll(g, Frames(g, ms, up));
    forall t | 0 <= t < |ps| ensures OutAt(Feed, st, ps, t) != Panic {
      Safety(g, ms, st, up, t);
      assert OutAt(Feed, st, ps, t) == Response(g, ms, st, up, t);
    }
  }

  /** The rows of a connection that carries request frames of `ms`, lost, repeated and
      reordered at will, and breaks off anywhere: those the RPC laws are about. */
  lemma StreamIsWritten(g: Geometry, ms: Traffic, st: Partials, up: seq<Token>, handler: Handler, tail: Bytes)
    requires WellFormed(g, ms) && AllHonest(g, ms, up) && st.Keys !! ms.Keys && |tail| < g.totalSize
    ensures var ps := ParseAll(g, Deframe(g, Flatten(Frames(g, ms, up)) + tail));
            NoPanic(st, ps) && Answers(g, handler, st, ps) == Written(g, ms, handler, st, up)
  {
    hide Parse, Answers, NoPanic, FrameOf, WellFormed, Rows;
    FramesSized(g, ms, up);
    DeframeWritten(g, Frames(g, ms, up), tail);
    HonestRequests(g, ms, st, up);
    AnswersAreRows(g, ms, st, up, handler, |up|);
    var ps := ParseAll(g, Frames(g, ms, up));
    assert ps[..|up|] == ps;
  }
}
