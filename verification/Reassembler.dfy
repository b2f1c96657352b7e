/** `NodeConn.ParseResp`: the state machine that puts the frames of interleaved
    messages back together, and the boxes in which callers wait for replies. */
module Reassembler {
  import opened Common
  import opened Wire
  import opened Decode

  /** The value of one `ReadLink`. */
  datatype Link = Link(funcid: nat, buck: nat, body: seq<Bytes>, recv: nat)

  type Partials = map<nat, Link>

  /** What one call returns: event id, function id, payload, error. Event id 0
      means "nothing complete". `Panic` is Go's index-out-of-range panic, and a loop that
      does not get past its frame is `Blocked`. */
  datatype Resp = Resp(num: nat, fid: nat, data: Bytes, err: Option<Error>) | Panic | Blocked

  const NOTHING := Resp(0, 0, [], None)

  function EmptySlots(n: nat): (slots: seq<Bytes>)
    ensures |slots| == n
  {
    seq(n, i => [])
  }

  ghost predicate HasGap(body: seq<Bytes>) {
    exists i :: 0 <= i < |body| && body[i] == []
  }

  /** A partial message after a further slice. */
  ghost function Filled(link: Link, slot: nat, data: Bytes): Link
    requires slot < |link.body|
  {
    link.(recv := (link.recv + 1) % UINT32, body := link.body[slot := data])
  }

  /** One frame arrives for an id that already has a partial message. */
  ghost function FeedKnown(st: Partials, uuid: nat, fn: nat, buck: nat, sort: nat, data: Bytes): (Partials, Resp)
    requires uuid in st
  {
    var link := st[uuid];
    if buck != link.buck || fn != link.funcid then (st - {uuid}, Resp(0, 0, [], Some(RecvWrong)))
    else if sort - 1 >= |link.body| then (st - {uuid}, Resp(0, 0, [], Some(RecvBuckWrong)))
    else if sort == 0 then (st, Panic)
    else if link.body[sort - 1] != [] then (st, NOTHING)
    else
      var link' := Filled(link, sort - 1, data);
      if link'.recv < link'.buck || HasGap(link'.body) then (st[uuid := link'], NOTHING)
      else (st - {uuid}, Resp(uuid, fn, Flatten(link'.body), None))
  }

  ghost function FeedBody(st: Partials, uuid: nat, fn: nat, buck: nat, sort: nat, data: Bytes): (Partials, Resp) {
    if sort > buck then (st, NOTHING)
    else if buck == 1 then (st, Resp(uuid, fn, data, None))
    else if buck == 0 then (st, NOTHING)
    else if uuid in st then FeedKnown(st, uuid, fn, buck, sort, data)
    else if sort == 0 then (st, Resp(0, 0, [], Some(RecvBuckWrong)))
    else (st[uuid := Link(fn, buck, EmptySlots(buck)[sort - 1 := data], 1)], NOTHING)
  }

  /** One `ParseResp` call on the table of partial messages. */
  ghost function Feed(st: Partials, p: Parsed): (Partials, Resp) {
    match p
    case Rejected(e) => (st, Resp(0, 0, [], Some(e)))
    case Failed(_, _, message) => (st, Resp(0, 0, [], Some(Remote(message))))
    case OutOfRange => (st, Panic)
    case Body(uuid, fn, buck, sort, data) => FeedBody(st, uuid, fn, buck, sort, data)
  }

  /** A frame concerns the entry of its own number at most. */
  lemma OnlyOwnEntry(st: Partials, p: Parsed)
    ensures var st' := Feed(st, p).0;
            if p.Body? then st' - {p.uuid} == st - {p.uuid} else st' == st
  {
  }

  /** A slice that does not fit the partial message of its number, in its function or
      its number of slices, takes that message away. */
  lemma MismatchForgets(st: Partials, p: Parsed)
    requires p.Body? && p.buck > 1 && p.sort <= p.buck && p.uuid in st
    requires p.buck != st[p.uuid].buck || p.fn != st[p.uuid].funcid
    ensures Feed(st, p) == (st - {p.uuid}, Resp(0, 0, [], Some(RecvWrong)))
  {
  }

  /** A slice that fits the partial message of its number. */
  ghost predicate Matches(st: Partials, p: Parsed) {
    && p.Body? && p.buck > 1 && 1 <= p.sort <= p.buck && p.uuid in st
    && p.buck == st[p.uuid].buck == |st[p.uuid].body| && p.fn == st[p.uuid].funcid
  }

  /** The slice that came first stays: one for a slot that is filled is ignored,
      whatever it says. */
  lemma FirstComeStays(st: Partials, p: Parsed)
    requires Matches(st, p) && st[p.uuid].body[p.sort - 1] != []
    ensures Feed(st, p) == (st, NOTHING)
  {
  }

  /** A message in one frame is returned at once, and leaves a partial message of its
      number alone, as does an error. */
  lemma WholePassesBy(st: Partials, p: Parsed)
    requires p.Failed? || (p.Body? && p.buck == 1 && p.sort <= 1)
    ensures Feed(st, p).0 == st
    ensures p.Body? ==> Feed(st, p).1 == Resp(p.uuid, p.fn, p.data, None)
  {
  }

  /** When a partial message goes away: exactly if a slice of several does not fit it,
      or if it is returned as a whole. */
  lemma GoesExactly(st: Partials, p: Parsed)
    requires p.Body? && p.uuid in st && st[p.uuid].buck == |st[p.uuid].body| > 1
    ensures var (st', r) := Feed(st, p);
            p.uuid !in st' <==>
              || (p.buck > 1 && p.sort <= p.buck && (p.buck != st[p.uuid].buck || p.fn != st[p.uuid].funcid))
              || (Matches(st, p) && r.Resp? && r.err == None && r != NOTHING)
  {
    if Matches(st, p) {
      var link := Filled(st[p.uuid], p.sort - 1, p.data);
      if !HasGap(link.body) {
        assert link.body[0] != [];
        assert Flatten(link.body) == link.body[0] + Flatten(link.body[1..]);
      }
    }
  }

  /** A frame of an unknown kind, without slices, or with a sort number beyond its
      number of slices, changes nothing and returns nothing. */
  lemma MalformedIgnored(g: Geometry, st: Partials, b: Bytes)
    requires |b| == g.totalSize && Delimited(b)
    requires || b[5] !in {0, 1, 2, 3, 4, 11, 12, 14, 15, 16, 17}
             || (b[5] in {1, 15} && Be16(b, 8) == 0)
             || (b[5] in {2, 16} && Be16(b, 10) > Be16(b, 8))
    ensures Feed(st, Parse(g, b)) == (st, NOTHING)
  {
  }

  /** A response with an event id never carries an error: the error channel of a
      waiting caller is never written, and an error reply is never routed. */
  lemma ErrorsHaveNoId(st: Partials, p: Parsed)
    ensures var (st', r) := Feed(st, p);
            && (r.Resp? && r.num > 0 ==> r.err == None)
            && (p.Failed? ==> st' == st && r == Resp(0, 0, [], Some(Remote(p.message))))
  {
  }

  /** Exactly which bytes make a call panic, on which tables: a frame that claims
      more body than it has, or a slice numbered 0 of a message that is known with
      the same function and the same number of slices. */
  lemma PanicsExactly(g: Geometry, st: Partials, b: Bytes)
    ensures Feed(st, Parse(g, b)).1 == Panic <==>
              && |b| == g.totalSize && Delimited(b)
              && (|| (b[5] in SIZED_KINDS && Be16(b, 10) > g.bodySplit + 2)
                  || (&& b[5] in {REQ_MIDDLE, RESP_MIDDLE} && Be16(b, 10) == 0
                      && Be24(b, 2) in st && Be16(b, 8) > 1
                      && Be16(b, 8) == st[Be24(b, 2)].buck && Be16(b, 6) == st[Be24(b, 2)].funcid))
  {
    OutOfRangeExactly(g, b);
  }

  /** A request of one byte whose header says 65535 panics at any node, unless a
      frame is that large. */
  lemma OverlongPanics(g: Geometry, st: Partials, num: nat, fid: nat)
    requires g.bodySplit < 65533
    ensures Feed(st, Parse(g, Seal(g, Prefix(num, fid, 1, 65535, WHOLE_DATA), [0]))).1 == Panic
  {
    SealFields(g, num, fid, 1, 65535, WHOLE_DATA, [0]);
    PanicsExactly(g, st, Seal(g, Prefix(num, fid, 1, 65535, WHOLE_DATA), [0]));
  }

  /** A slice numbered 0 is refused as the first of its message, and panics after
      any other. */
  lemma SliceZeroPanics(g: Geometry, st: Partials, num: nat, fid: nat, buck: nat)
    requires 0 < num < MAX_UUID && fid < MAX_FUNC && 1 < buck < MAX_BUCK && num !in st
    ensures var first := Parse(g, Seal(g, Prefix(num, fid, buck, 1, BODY_START), []));
            var zero := Parse(g, Seal(g, Prefix(num, fid, buck, 0, REQ_MIDDLE), []));
            && Feed(st, zero).1 == Resp(0, 0, [], Some(RecvBuckWrong))
            && Feed(st, first).1 == NOTHING && Feed(Feed(st, first).0, zero).1 == Panic
  {
    SealFields(g, num, fid, buck, 1, BODY_START, []);
    SealFields(g, num, fid, buck, 0, REQ_MIDDLE, []);
  }

  // ---------------------------------------------------------------------------
  // Boxes

  /** Where a caller waits for its reply: two Go channels, as what is sent to them
      and not yet received. */
  datatype RecvChan = RecvChan(body: seq<Bytes>, err: seq<Error>)

  type Waiters = map<nat, RecvChan>

  const EMPTY_BOX := RecvChan([], [])

  /** The capacity `NewChan` gives both channels. A send to a full one blocks. */
  const CAPACITY := 1

  /** The send of a result, to a channel with room. */
  ghost function Route(rc: Waiters, r: Resp): Waiters {
    if r.Resp? && r.num > 0 && r.num in rc then
      var c := rc[r.num];
      rc[r.num := if r.err.Some? then c.(err := c.err + [r.err.value]) else c.(body := c.body + [r.data])]
    else rc
  }

  /** The send of a result does not block. */
  ghost predicate Fits(rc: Waiters, r: Resp) {
    r.Resp? && r.num > 0 && r.num in rc ==>
      (if r.err.Some? then |rc[r.num].err| else |rc[r.num].body|) < CAPACITY
  }

  /** The read loop of a connection: ready for a frame, blocked in a send until
      its box is read, or blocked for good in a send to a box that is gone. */
  datatype Loop = Running | Sending(r: Resp) | Stuck

  datatype ConnState = ConnState(st: Partials, rc: Waiters, loop: Loop)

  /** One frame in a read loop: reassemble, then send. A blocked loop reads nothing. */
  ghost function Receive(s: ConnState, p: Parsed): (ConnState, Resp) {
    if s.loop != Running then (s, Blocked)
    else
      var (st, r) := Feed(s.st, p);
      if Fits(s.rc, r) then (ConnState(st, Route(s.rc, r), Running), r)
      else (ConnState(st, s.rc, Sending(r)), Blocked)
  }

  /** The box `num` is replaced or deleted: a send that blocks on it never ends. */
  ghost function Abandoned(loop: Loop, num: nat): Loop {
    if SendsTo(loop, num) then Stuck else loop
  }

  ghost predicate SendsTo(loop: Loop, num: nat) {
    loop.Sending? && loop.r.Resp? && loop.r.num == num
  }

  /** `NewChan` */
  ghost function Opened(s: ConnState, num: nat): ConnState {
    s.(rc := s.rc[num := EMPTY_BOX], loop := Abandoned(s.loop, num))
  }

  /** `DelChan` */
  ghost function Closed(s: ConnState, num: nat): ConnState {
    s.(rc := s.rc - {num}, loop := Abandoned(s.loop, num))
  }

  function Tail<T>(s: seq<T>): seq<T> {
    if s == [] then [] else s[1..]
  }

  ghost function Popped(rc: Waiters, num: nat, err: bool): Waiters {
    if num in rc then
      rc[num := if err then rc[num].(err := Tail(rc[num].err)) else rc[num].(body := Tail(rc[num].body))]
    else rc
  }

  /** A caller receives from its box, from one channel or the other. If the read
      loop blocks on that channel, its send goes through. */
  ghost function Taken(s: ConnState, num: nat, err: bool): ConnState {
    var rc := Popped(s.rc, num, err);
    if SendsTo(s.loop, num) && s.loop.r.err.Some? == err then
      s.(rc := Route(rc, s.loop.r), loop := Running)
    else s.(rc := rc)
  }

  // ---------------------------------------------------------------------------
  // Storage

  /** What is in the byte slices a connection stores or hands out. */
  type Memory = map<array<byte>, Bytes>

  ghost predicate Within(body: seq<Slice>, mem: Memory) {
    forall i :: 0 <= i < |body| ==> Storage(body[i]) <= mem.Keys
  }

  ghost function Content(s: Slice, mem: Memory): Bytes
    requires Storage(s) <= mem.Keys
  {
    if s.Some? then mem[s.value] else []
  }

  ghost function Contents(body: seq<Slice>, mem: Memory): (c: seq<Bytes>)
    requires Within(body, mem)
    ensures |c| == |body|
  {
    seq(|body|, i requires 0 <= i < |body| => Content(body[i], mem))
  }

  /** The memory behind a slice still holds what was stored there. */
  ghost predicate Intact(s: Slice, mem: Memory)
    requires Storage(s) <= mem.Keys
    reads Storage(s)
  {
    Read(s) == Content(s, mem)
  }

  /** `append(a, b...)` */
  method Append(a: array<byte>, b: array<byte>) returns (c: array<byte>)
    ensures fresh(c) && c[..] == a[..] + b[..]
  {
    c := new byte[a.Length + b.Length](i reads a, b requires 0 <= i < a.Length + b.Length =>
      if i < a.Length then a[i] else b[i - a.Length]);
  }

  /** The completion loop: all slots in order, unless one is still empty. */
  method Join(body: seq<Slice>, ghost mem: Memory) returns (r: Option<array<byte>>)
    requires Within(body, mem) && forall i :: 0 <= i < |body| ==> Intact(body[i], mem)
    ensures r == None <==> HasGap(Contents(body, mem))
    ensures r.Some? ==> fresh(r.value) && r.value[..] == Flatten(Contents(body, mem))
  {
    var result := new byte[0];
    ghost var parts := Contents(body, mem);
    for i := 0 to |body|
      invariant fresh(result)
      invariant forall k :: 0 <= k < i ==> parts[k] != []
      invariant result[..] == Flatten(parts[..i])
    {
      assert Intact(body[i], mem) && parts[i] == Content(body[i], mem);
      if body[i] == None || body[i].value.Length == 0 {
        assert parts[i] == [];
        return None;
      }
      FlattenSnoc(parts[..i], parts[i]);
      assert parts[..i] + [parts[i]] == parts[..i + 1];
      result := Append(result, body[i].value);
    }
    assert parts[..|body|] == parts;
    return Some(result);
  }

  class ReadLink {
    const funcid: nat
    const buck: nat
    const uuid: nat
    var body: seq<Slice>
    var recv: nat

    /** The slots are empty: nothing of the message is stored. */
    constructor (funcid: nat, buck: nat, uuid: nat)
      ensures this.funcid == funcid && this.buck == buck && this.uuid == uuid
      ensures body == seq(buck, i => None) && recv == 1
    {
      this.funcid, this.buck, this.uuid := funcid, buck, uuid;
      body, recv := seq(buck, i => None), 1;
    }

    ghost function Value(mem: Memory): Link
      requires Within(body, mem)
      reads this
    {
      Link(funcid, buck, Contents(body, mem), recv)
    }

    ghost predicate Represents(link: Link, mem: Memory)
      reads this
    {
      Within(body, mem) && link == Value(mem)
    }
  }

  datatype Chan = Chan(body: seq<Slice>, err: seq<Error>)

  /** What a call returns, with its payload in memory. */
  datatype Result = Result(num: nat, fid: nat, data: Slice, err: Option<Error>) | Panicked

  ghost function Payload(r: Result): set<array<byte>> {
    if r.Result? then Storage(r.data) else {}
  }

  ghost function Meant(r: Result): Resp
    reads Payload(r)
  {
    if r.Panicked? then Panic else Resp(r.num, r.fid, Read(r.data), r.err)
  }

  /** A result as its payload is recorded in memory. */
  ghost function Recorded(r: Result, mem: Memory): Resp
    requires Payload(r) <= mem.Keys
  {
    if r.Panicked? then Panic else Resp(r.num, r.fid, Content(r.data, mem), r.err)
  }

  /** What the read loop is doing. */
  datatype Sender = Idle | Holding(r: Result) | Lost

  class NodeConn {
    var list: map<nat, ReadLink>
    var rc: map<nat, Chan>
    var sender: Sender

    /** What `list`, `rc` and `sender` stand for. */
    ghost var partial: Partials
    ghost var waiting: Waiters
    ghost var loop: Loop
    /** All memory that slots and delivered payloads were ever stored in. */
    ghost var memory: Memory

    /** Every entry is filed under its own event id, so no two keys share an
        object. */
    ghost predicate Tabled()
      reads this`list, this`partial, this`memory, list.Values
    {
      && partial.Keys == list.Keys
      && forall k :: k in list ==> list[k].uuid == k && list[k].Represents(partial[k], memory)
    }

    ghost predicate Boxed()
      reads this`rc, this`waiting, this`sender, this`loop, this`memory
    {
      && waiting.Keys == rc.Keys
      && (forall k :: k in rc ==>
            && Within(rc[k].body, memory) && waiting[k] == RecvChan(Contents(rc[k].body, memory), rc[k].err)
            && |rc[k].body| <= CAPACITY && |rc[k].err| <= CAPACITY)
      && match sender
         case Idle => loop == Running
         case Holding(r) => r.Result? && Payload(r) <= memory.Keys && loop == Sending(Recorded(r, memory))
         case Lost => loop == Stuck
    }

    /** The memory still holds what was stored. */
    ghost predicate Stored()
      reads this`memory, memory.Keys
    {
      forall a :: a in memory ==> Intact(Some(a), memory)
    }

    ghost predicate Valid()
      reads this, list.Values, memory.Keys
    {
      Tabled() && Boxed() && Stored()
    }

    ghost function View(): ConnState
      reads this`partial, this`waiting, this`loop
    {
      ConnState(partial, waiting, loop)
    }

    constructor ()
      ensures Valid() && View() == ConnState(map[], map[], Running) && memory == map[] && list == map[]
    {
      list, rc, sender := map[], map[], Idle;
      partial, waiting, loop, memory := map[], map[], Running, map[];
    }

    /** Leaves the read loop blocked for good if it is about to send to box `num`. */
    method Abandon(num: nat)
      requires Boxed()
      modifies this`sender, this`loop
      ensures Boxed() && loop == Abandoned(old(loop), num)
    {
      if sender.Holding? && sender.r.num == num {
        sender, loop := Lost, Stuck;
      }
    }

    method NewChan(num: nat)
      requires Boxed()
      modifies this`rc, this`waiting, this`sender, this`loop
      ensures Boxed() && View() == Opened(old(View()), num)
    {
      Abandon(num);
      rc, waiting := rc[num := Chan([], [])], waiting[num := EMPTY_BOX];
    }

    method DelChan(num: nat)
      requires Boxed()
      modifies this`rc, this`waiting, this`sender, this`loop
      ensures Boxed() && View() == Closed(old(View()), num)
    {
      Abandon(num);
      rc, waiting := rc - {num}, waiting - {num};
    }

    lemma EntryOf(uuid: nat)
      requires Tabled() && uuid in list
      ensures uuid in partial && list[uuid].uuid == uuid && list[uuid].Represents(partial[uuid], memory)
    {
    }

    lemma StoredIntact(s: Slice)
      requires Stored() && Storage(s) <= memory.Keys
      ensures Intact(s, memory)
    {
      assert s.Some? ==> Intact(Some(s.value), memory);
    }

    /** What was delivered to a box is still there. */
    lemma BoxIntact(num: nat)
      requires Boxed() && Stored() && num in rc
      ensures num in waiting && waiting[num].err == rc[num].err && |waiting[num].body| == |rc[num].body|
      ensures forall i :: 0 <= i < |rc[num].body| ==> waiting[num].body[i] == Read(rc[num].body[i])
    {
      forall i | 0 <= i < |rc[num].body| ensures waiting[num].body[i] == Read(rc[num].body[i]) {
        StoredIntact(rc[num].body[i]);
      }
    }

    /** Takes note of memory that is about to be stored or returned. */
    ghost method Keep(s: Slice)
      requires Valid()
      modifies this`memory
      ensures Valid() && memory.Keys == old(memory.Keys) + Storage(s)
    {
      if s.Some? && s.value !in memory {
        memory := memory[s.value := s.value[..]];
        forall b | b in memory ensures Intact(Some(b), memory) {
          assert b in old(memory) ==> Intact(Some(b), old(memory));
        }
        forall k | k in list ensures list[k].Represents(partial[k], memory) {
          assert list[k].Represents(partial[k], old(memory));
          assert Contents(list[k].body, memory) == Contents(list[k].body, old(memory));
        }
        forall k | k in rc ensures Contents(rc[k].body, memory) == Contents(rc[k].body, old(memory)) {
        }
      }
    }

    method ParseResp(g: Geometry, cb: array<byte>) returns (r: Result)
      requires Valid()
      modifies this`list, this`partial, this`memory, list.Values
      ensures Valid() && fresh(list.Values - old(list.Values))
      ensures old(memory.Keys) <= memory.Keys && fresh(memory.Keys - old(memory.Keys)) && Payload(r) <= memory.Keys
      ensures (partial, Meant(r)) == Feed(old(partial), Parse(g, cb[..]))
    {
      var d := ParseBuffer(g, cb);
      match d
      case Wrong(e) => r := Result(0, 0, None, Some(e));
      case Refused(_, _, message) => r := Result(0, 0, None, Some(Remote(message)));
      case SliceBounds => r := Panicked;
      case JoinBodyData(uuid, fn, buck, sort, data) => r := ParseCopied(uuid, fn, buck, sort, data);
    }

    /** A frame whose payload was copied out of its buffer. */
    method ParseCopied(uuid: nat, fn: nat, buck: nat, sort: nat, data: Slice) returns (r: Result)
      requires Valid() && Storage(data) !! memory.Keys
      modifies this`list, this`partial, this`memory, list.Values
      ensures Valid() && fresh(list.Values - old(list.Values)) && Payload(r) <= memory.Keys
      ensures old(memory.Keys) <= memory.Keys && fresh(memory.Keys - old(memory.Keys) - Storage(data))
      ensures (partial, Meant(r)) == FeedBody(old(partial), uuid, fn, buck, sort, Read(data))
    {
      hide Tabled, Stored, Boxed;
      Keep(data);
      StoredIntact(data);
      r := ParseBody(uuid, fn, buck, sort, data);
      if r.Result? {
        Keep(r.data);
      }
    }

    method ParseBody(uuid: nat, fn: nat, buck: nat, sort: nat, data: Slice) returns (r: Result)
      requires Tabled() && Stored() && Storage(data) <= memory.Keys
      modifies this`list, this`partial, list.Values
      ensures Tabled() && fresh(list.Values - old(list.Values)) && fresh(Payload(r) - memory.Keys)
      ensures (partial, Meant(r)) == FeedBody(old(partial), uuid, fn, buck, sort, Content(data, memory))
    {
      r := Result(0, 0, None, None);
      if sort > buck {
        return;
      }
      if buck == 1 {
        return Result(uuid, fn, data, None);
      } else if buck > 1 {
        if uuid in list {
          r := ParseKnown(uuid, fn, buck, sort, data);
        } else if sort <= 0 {
          Forget(uuid);
          assert partial == old(partial);
          return Result(0, 0, None, Some(RecvBuckWrong));
        } else {
          Begin(uuid, fn, buck, sort, data);
        }
      }
    }

    method Forget(uuid: nat)
      requires Tabled()
      modifies this`list, this`partial
      ensures Tabled() && list == old(list) - {uuid} && partial == old(partial) - {uuid}
    {
      list, partial := list - {uuid}, partial - {uuid};
    }

    /** The branch of `ParseResp` for an id that has no partial message. */
    method Begin(uuid: nat, fn: nat, buck: nat, sort: nat, data: Slice)
      requires Tabled() && uuid !in list && 0 < sort <= buck
      requires Storage(data) <= memory.Keys
      modifies this`list, this`partial
      ensures Tabled() && fresh(list.Values - old(list.Values))
      ensures partial == old(partial)[uuid := Link(fn, buck, EmptySlots(buck)[sort - 1 := Content(data, memory)], 1)]
    {
      var tmp := new ReadLink(fn, buck, uuid);
      tmp.body := tmp.body[sort - 1 := data];
      assert Contents(tmp.body, memory) == EmptySlots(buck)[sort - 1 := Content(data, memory)];
      list, partial := list[uuid := tmp], partial[uuid := tmp.Value(memory)];
    }

    /** Stores a slice in its slot, and says whether the count is full. */
    method Fill(uuid: nat, slot: nat, data: Slice) returns (full: bool)
      requires Tabled() && uuid in list && slot < |list[uuid].body| && Storage(data) <= memory.Keys
      modifies this`partial, list[uuid]
      ensures Tabled() && slot < |old(partial[uuid]).body|
      ensures partial == old(partial)[uuid := Filled(old(partial[uuid]), slot, Content(data, memory))]
      ensures full <==> partial[uuid].recv >= partial[uuid].buck
    {
      var tmp := list[uuid];
      tmp.recv := (tmp.recv + 1) % UINT32;
      tmp.body := tmp.body[slot := data];
      assert Contents(tmp.body, memory) == old(Contents(tmp.body, memory))[slot := Content(data, memory)];
      assert tmp.Represents(Filled(partial[uuid], slot, Content(data, memory)), memory);
      partial := partial[uuid := Filled(partial[uuid], slot, Content(data, memory))];
      full := tmp.recv >= tmp.buck;
      forall k | k in list && k != uuid ensures list[k].Represents(partial[k], memory) {
        assert old(list[k].uuid) == k != tmp.uuid;
      }
    }

    /** The branch of `ParseResp` for an id that has a partial message. */
    method ParseKnown(uuid: nat, fn: nat, buck: nat, sort: nat, data: Slice) returns (r: Result)
      requires Tabled() && Stored() && uuid in list && Storage(data) <= memory.Keys
      modifies this`list, this`partial, list[uuid]
      ensures Tabled() && list.Values <= old(list.Values) && fresh(Payload(r) - memory.Keys)
      ensures (partial, Meant(r)) == FeedKnown(old(partial), uuid, fn, buck, sort, Content(data, memory))
    {
      hide Tabled, Stored;
      EntryOf(uuid);
      var tmp := list[uuid];
      r := Result(0, 0, None, None);
      if buck != tmp.buck || fn != tmp.funcid {
        Forget(uuid);
        return Result(0, 0, None, Some(RecvWrong));
      }
      if sort - 1 >= |tmp.body| {
        Forget(uuid);
        return Result(0, 0, None, Some(RecvBuckWrong));
      }
      if sort == 0 {
        return Panicked;
      }
      var slot := tmp.body[sort - 1];
      StoredIntact(slot);
      if slot == None || slot.value.Length == 0 {
        r := Add(uuid, sort - 1, data);
      }
    }

    /** Stores a slice, and finishes the message if its count is full. */
    method Add(uuid: nat, slot: nat, data: Slice) returns (r: Result)
      requires Tabled() && Stored() && uuid in list && Storage(data) <= memory.Keys
      requires slot < |list[uuid].body|
      modifies this`list, this`partial, list[uuid]
      ensures Tabled() && list.Values <= old(list.Values) && fresh(Payload(r) - memory.Keys)
      ensures slot < |old(partial[uuid]).body|
      ensures var link := Filled(old(partial[uuid]), slot, Content(data, memory));
              (partial, Meant(r)) ==
              if link.recv < link.buck || HasGap(link.body) then (old(partial)[uuid := link], NOTHING)
              else (old(partial) - {uuid}, Resp(uuid, link.funcid, Flatten(link.body), None))
    {
      hide Tabled, Stored;
      var full := Fill(uuid, slot, data);
      assert partial - {uuid} == old(partial) - {uuid};
      if full {
        r := Finish(uuid);
      } else {
        r := Result(0, 0, None, None);
      }
    }

    /** The end of a message whose count is full. */
    method Finish(uuid: nat) returns (r: Result)
      requires Tabled() && Stored() && uuid in list
      modifies this`list, this`partial
      ensures Tabled() && list.Values <= old(list.Values) && fresh(Payload(r) - memory.Keys)
      ensures var link := old(partial[uuid]);
              (partial, Meant(r)) ==
              if HasGap(link.body) then (old(partial), NOTHING)
              else (old(partial) - {uuid}, Resp(uuid, link.funcid, Flatten(link.body), None))
    {
      var body := list[uuid].body;
      forall i | 0 <= i < |body| ensures Intact(body[i], memory) {
        StoredIntact(body[i]);
      }
      var whole := Join(body, memory);
      if whole == None {
        return Result(0, 0, None, None);
      }
      r := Result(uuid, list[uuid].funcid, whole, None);
      Forget(uuid);
    }

    /** Sends a result to a box with room. */
    method Push(r: Result)
      requires Boxed() && r.Result? && Payload(r) <= memory.Keys && r.num > 0 && r.num in rc
      requires Fits(waiting, Recorded(r, memory))
      modifies this`rc, this`waiting
      ensures Boxed() && waiting == Route(old(waiting), Recorded(r, memory))
    {
      var c := rc[r.num];
      if r.err.Some? {
        rc := rc[r.num := c.(err := c.err + [r.err.value])];
      } else {
        assert Contents(c.body + [r.data], memory) == Contents(c.body, memory) + [Content(r.data, memory)];
        rc := rc[r.num := c.(body := c.body + [r.data])];
      }
      waiting := Route(waiting, Recorded(r, memory));
    }

    /** The tail of both read loops: the result goes to its box, and if that is
        full, the loop blocks. */
    method Deliver(r: Result) returns (blocked: bool)
      requires Boxed() && Stored() && r.Result? && Payload(r) <= memory.Keys && loop == Running
      modifies this`rc, this`waiting, this`sender, this`loop
      ensures Boxed() && (blocked <==> !Fits(old(waiting), Meant(r)))
      ensures !blocked ==> waiting == Route(old(waiting), Meant(r)) && loop == Running
      ensures blocked ==> waiting == old(waiting) && loop == Sending(Meant(r))
    {
      StoredIntact(r.data);
      blocked := false;
      if r.num > 0 {
        if r.num in rc {
          var c := rc[r.num];
          blocked := if r.err.Some? then |c.err| >= CAPACITY else |c.body| >= CAPACITY;
          if blocked {
            sender, loop := Holding(r), Sending(Recorded(r, memory));
          } else {
            Push(r);
          }
        }
      }
    }

    /** Takes the head of one of a box's channels. */
    method Pop(num: nat, err: bool)
      requires Boxed() && num in rc && if err then rc[num].err != [] else rc[num].body != []
      modifies this`rc, this`waiting
      ensures Boxed() && rc.Keys == old(rc.Keys) && waiting == Popped(old(waiting), num, err)
      ensures if err then |waiting[num].err| < CAPACITY else |waiting[num].body| < CAPACITY
    {
      var c := rc[num];
      assert Contents(Tail(c.body), memory) == Tail(Contents(c.body, memory));
      rc := rc[num := if err then c.(err := Tail(c.err)) else c.(body := Tail(c.body))];
      waiting := Popped(waiting, num, err);
    }

    /** A caller receives from its box; a send that waited for that goes through. */
    method Take(num: nat, err: bool)
      requires Boxed() && num in rc && if err then rc[num].err != [] else rc[num].body != []
      modifies this`rc, this`waiting, this`sender, this`loop
      ensures Boxed() && View() == Taken(old(View()), num, err)
    {
      Pop(num, err);
      if sender.Holding? && sender.r.num == num && sender.r.err.Some? == err {
        var r := sender.r;
        sender, loop := Idle, Running;
        if num > 0 {
          Push(r);
        }
      }
    }

    /** The end of a wait: at most one receive, then `DelChan`. */
    method Leave(num: nat, take: Option<bool>)
      requires Boxed() && num in rc
      requires take.Some? ==> if take.value then rc[num].err != [] else rc[num].body != []
      modifies this`rc, this`waiting, this`sender, this`loop
      ensures Boxed()
      ensures View() == Closed(if take.Some? then Taken(old(View()), num, take.value) else old(View()), num)
    {
      hide Boxed, Taken, Closed;
      if take.Some? {
        Take(num, take.value);
      }
      DelChan(num);
    }
  }

  lemma {:induction false} FlattenSnoc(parts: seq<Bytes>, last: Bytes)
    ensures Flatten(parts + [last]) == Flatten(parts) + last
  {
    if parts == [] {
      assert parts + [last] == [last];
    } else {
      assert (parts + [last])[1..] == parts[1..] + [last];
      FlattenSnoc(parts[1..], last);
    }
  }
}
