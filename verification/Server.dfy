/** The server side: `ParseRspByte` reassembles a request, calls the handler and
    frames the reply; datagrams reach it through zeroed buffers. */
module Server {
  import opened Common
  import opened Wire
  import opened Reassembler
  import opened Transport

  /** The built-in and registered functions, by function id. */
  type Handler = (nat, Bytes) -> Outcome

  ghost function Answer(g: Geometry, handler: Handler, r: Resp): seq<Bytes> {
    if !r.Resp? || r.err.Some? || r.fid == 0 || r.num == 0 then []
    else RspFrames(g, handler(r.fid, r.data), r.num, r.fid)
  }

  /** A frame of another kind than "no such api". */
  ghost predicate Readable(g: Geometry, row: Bytes) {
    |row| == g.totalSize && row[5] != RESP_NO_FOUND
  }

  /** The "no such api" kind is never written: a request for function 0 gets no
      answer at all, and an api the node does not have is an error of the handler. */
  lemma NoNotFoundRows(g: Geometry, handler: Handler, r: Resp)
    ensures forall row :: row in Answer(g, handler, r) ==> Readable(g, row)
  {
    if r.Resp? && r.err == None && r.fid > 0 && r.num > 0 {
      hide Readable, Seal, ReqFrames;
      var outcome := handler(r.fid, r.data);
      match outcome
      case Failure(message) => FailureKind(g, message, r.num, r.fid);
      case Success(data) => RequestKinds(g, data, r.num, r.fid);
    }
  }

  lemma FailureKind(g: Geometry, message: Bytes, num: nat, fid: nat)
    ensures Readable(g, Seal(g, Prefix(num, fid, 1, |Cut(g, message)|, RESP_FAILED), Cut(g, message)))
  {
    SealFields(g, num, fid, 1, |Cut(g, message)|, RESP_FAILED, Cut(g, message));
  }

  lemma RequestKinds(g: Geometry, bts: Bytes, num: nat, fid: nat)
    ensures forall row :: row in ReqFrames(g, bts, num, fid) ==> Readable(g, row)
  {
    hide ReqFrames, Seal;
    var rows := ReqFrames(g, bts, num, fid);
    forall i | 0 <= i < |rows| ensures Readable(g, rows[i]) {
      var buck, last, model, body := FrameIsSealed(g, bts, num, fid, i);
      SealFields(g, num, fid, buck, last, model, body);
    }
  }

  /** A request with number 0 is never answered, whatever else is on the
      connection: event id 0 means "nothing complete". */
  lemma NumberZeroUnanswered(g: Geometry, st: Partials, handler: Handler, bts: Bytes, fid: nat, i: nat)
    requires i < |ReqFrames(g, bts, 0, fid)|
    ensures Answer(g, handler, Feed(st, Parse(g, ReqFrames(g, bts, 0, fid)[i])).1) == []
  {
    hide Parse, Feed, Seal, ReqFrames;
    var buck, last, model, body := FrameIsSealed(g, bts, 0, fid, i);
    SealFields(g, 0, fid, buck, last, model, body);
    ZeroIgnored(g, st, handler, ReqFrames(g, bts, 0, fid)[i]);
  }

  lemma ZeroIgnored(g: Geometry, st: Partials, handler: Handler, b: Bytes)
    requires |b| == g.totalSize && Be24(b, 2) == 0
    ensures Answer(g, handler, Feed(st, Parse(g, b)).1) == []
  {
  }

  method ParseRspByte(
    g: Geometry, nc: NodeConn, cb: array<byte>, handler: Handler) returns (rows: seq<Bytes>, panicked: bool)
    requires nc.Valid()
    modifies nc`list, nc`partial, nc`memory, nc.list.Values
    ensures nc.Valid() && fresh(nc.list.Values - old(nc.list.Values))
    ensures old(nc.memory.Keys) <= nc.memory.Keys && fresh(nc.memory.Keys - old(nc.memory.Keys))
    ensures var (st', r) := Feed(old(nc.partial), Parse(g, cb[..]));
            && nc.partial == st' && rows == Answer(g, handler, r) && (panicked <==> r == Panic)
  {
    var r := nc.ParseResp(g, cb);
    if r.Panicked? {
      return [], true;
    }
    panicked := false;
    if r.err.Some? || r.fid == 0 || r.num == 0 {
      rows := [];
    } else {
      var outcome := handler(r.fid, if r.data.Some? then r.data.value[..] else []);
      rows := MakeRspBody(g, outcome, r.num, r.fid);
    }
  }

  // ---------------------------------------------------------------------------
  // Datagrams

  /** A datagram in a zeroed buffer: what does not fit is cut, what is missing
      stays zero. */
  function Padded(size: nat, datagram: Bytes): (b: Bytes)
    ensures |b| == size
  {
    if |datagram| >= size then datagram[..size] else datagram + Zeros(size - |datagram|)
  }

  /** `ReadFromUDP` into a pooled buffer. */
  method ReadFromUDP(datagram: Bytes, buff: array<byte>) returns (num: nat)
    requires AllZero(buff[..])
    modifies buff
    ensures num == if |datagram| < buff.Length then |datagram| else buff.Length
    ensures buff[..] == Padded(buff.Length, datagram)
  {
    num := if |datagram| < buff.Length then |datagram| else buff.Length;
    for i := 0 to num
      invariant forall k :: 0 <= k < i ==> buff[k] == datagram[k]
      invariant forall k :: i <= k < buff.Length ==> buff[k] == 0
    {
      buff[i] := datagram[i];
    }
  }

  /** The server does not look at the length of a datagram. It need not: in a
      zeroed buffer a short datagram has no end mark, so `parse` rejects it. */
  lemma ShortDatagramRejected(g: Geometry, datagram: Bytes)
    ensures |datagram| < g.totalSize ==> Parse(g, Padded(g.totalSize, datagram)) == Rejected(WrongRule)
  {
    if |datagram| < g.totalSize {
      assert Padded(g.totalSize, datagram)[g.totalSize - 1] == 0;
    }
  }

  /** Takes a buffer and receives a datagram into it. */
  method NextDatagram(pool: BufferPool, datagram: Bytes) returns (buff: array<byte>, num: nat)
    requires pool.Valid()
    modifies pool, pool.free
    ensures pool.Valid() && fresh(pool.free - old(pool.free))
    ensures buff.Length == pool.size && buff !in pool.free && (fresh(buff) || buff in old(pool.free))
    ensures buff[..] == Padded(pool.size, datagram)
    ensures num == if |datagram| < pool.size then |datagram| else pool.size
  {
    buff := pool.Get();
    num := ReadFromUDP(datagram, buff);
  }

  /** One round of the `UdpListen` loop. A datagram of less than a frame has no
      effect; any other is handled as the frame it starts with; the pool is left
      with zeroed buffers only, none of which is memory of a stored slice. */
  method ServeDatagram(g: Geometry, pool: BufferPool, nc: NodeConn, datagram: Bytes, handler: Handler)
    returns (rows: seq<Bytes>, panicked: bool)
    requires pool.Valid() && pool.size == g.totalSize && nc.Valid() && Apart(pool, nc)
    modifies pool, pool.free, nc`list, nc`partial, nc`memory, nc.list.Values
    ensures pool.Valid() && nc.Valid() && Apart(pool, nc) && old(nc.memory.Keys) <= nc.memory.Keys
    ensures |datagram| < g.totalSize ==> rows == [] && !panicked && nc.partial == old(nc.partial)
    ensures |datagram| >= g.totalSize ==>
              var (st', r) := Feed(old(nc.partial), Parse(g, datagram[..g.totalSize]));
              nc.partial == st' && rows == Answer(g, handler, r) && (panicked <==> r == Panic)
  {
    hide NodeConn.Valid, BufferPool.Valid;
    var buff, _ := NextDatagram(pool, datagram);
    ShortDatagramRejected(g, datagram);
    rows, panicked := ParseRspByte(g, nc, buff, handler);
    if !panicked {
      pool.Put(buff);
    }
  }
}
