/** Sending a request: request numbers (`serial`) and the failover loop over the
    known connections (`connsCall`). */
module Invoke {
  import opened Common
  import opened Wire
  import opened Reassembler
  import opened Runs
  import opened Collector
  import opened Delivery

  const CYCLE := 65535

  // ---------------------------------------------------------------------------
  // Request numbers

  /** The counter after one external `serial` call: the first use, and the first
      use after the counter wraps, jump past the reserved numbers. */
  function Advance(reqnum: nat): (n: nat)
    requires reqnum < UINT32
    ensures WATCH_IN_MAX <= n < UINT32
  {
    var n := (reqnum + 1) % UINT32;
    if n < WATCH_IN_MAX then WATCH_IN_MAX + 1 else n
  }

  /** The counter after k external calls. */
  ghost function Advanced(reqnum: nat, k: nat): (n: nat)
    requires reqnum < UINT32
    ensures n < UINT32
  {
    if k == 0 then reqnum else Advance(Advanced(reqnum, k - 1))
  }

  class Numbering {
    var reqnum: nat

    ghost predicate Valid()
      reads this
    {
      reqnum < UINT32
    }

    constructor ()
      ensures Valid() && reqnum == 0
    {
      reqnum := 0;
    }

    method Serial(fid: nat) returns (num: nat)
      requires Valid()
      modifies this
      ensures Valid()
      ensures fid < WATCH_IN_MAX ==> num == fid && reqnum == old(reqnum)
      ensures fid >= WATCH_IN_MAX ==> reqnum == Advance(old(reqnum)) && num == reqnum % CYCLE
    {
      if fid < WATCH_IN_MAX {
        return fid;
      }
      reqnum := (reqnum + 1) % UINT32;
      num := reqnum;
      if num < WATCH_IN_MAX {
        reqnum := WATCH_IN_MAX;
        reqnum := (reqnum + 1) % UINT32;
        num := reqnum;
      }
      num := num % CYCLE;
    }
  }

  /** The number the k-th external call returns, counting from 1. */
  ghost function Number(reqnum: nat, k: nat): nat
    requires reqnum < UINT32 && k > 0
  {
    Advanced(reqnum, k) % CYCLE
  }

  /** Between wraps of the counter it counts up by one after the first call. */
  lemma {:induction false} AdvancedCounts(reqnum: nat, k: nat)
    requires reqnum < UINT32 && k > 0 && Advance(reqnum) + (k - 1) < UINT32
    ensures Advanced(reqnum, k) == Advance(reqnum) + (k - 1)
  {
    if k > 1 {
      AdvancedCounts(reqnum, k - 1);
    } else {
      assert Advanced(reqnum, 1) == Advance(Advanced(reqnum, 0));
    }
  }

  /** Between wraps two calls get the same number exactly when they are a
      multiple of 65535 calls apart, and every number fits the three-byte id. */
  lemma NumbersRepeatEvery65535(reqnum: nat, i: nat, j: nat)
    requires reqnum < UINT32 && 0 < i <= j && Advance(reqnum) + (j - 1) < UINT32
    ensures Number(reqnum, i) == Number(reqnum, j) <==> (j - i) % 65535 == 0
    ensures Number(reqnum, i) < 65535 < MAX_UUID
  {
    AdvancedCounts(reqnum, i);
    AdvancedCounts(reqnum, j);
    SameRemainder(Advanced(reqnum, i), Advanced(reqnum, j));
  }

  lemma SameRemainder(a: nat, b: nat)
    requires a <= b
    ensures a % CYCLE == b % CYCLE <==> (b - a) % CYCLE == 0
  {
  }

  /** So a window of up to 65535 consecutive calls has no repeats. */
  lemma WindowDistinct(reqnum: nat, i: nat, j: nat)
    requires reqnum < UINT32 && 0 < i < j < i + 65535 && Advance(reqnum) + (j - 1) < UINT32
    ensures Number(reqnum, i) != Number(reqnum, j)
  {
    NumbersRepeatEvery65535(reqnum, i, j);
  }

  /** Not every number is usable: request number 0 is never answered
      (`Server.NumberZeroUnanswered`). A call gets it exactly when the counter
      lands on a multiple of 65535. */
  lemma UnanswerableNumber(reqnum: nat)
    requires reqnum < UINT32
    ensures Number(reqnum, 1) == 0 <==> (reqnum + 1) % 65535 == 0 && (reqnum + 1) % 0x1_0000_0000 >= 100
    ensures Number(65534, 1) == 0
  {
    FirstNumber(reqnum);
    FirstNumber(65534);
  }

  /** The jump past the reserved numbers does not keep clear of them: the remainder
      falls back among them, at 65536 first. An external call shares its number
      with a reserved api exactly when the counter is that close to a multiple of
      65535. */
  lemma ReservedNumber(reqnum: nat)
    requires reqnum < UINT32
    ensures Number(reqnum, 1) < 100 <==> (reqnum + 1) % 65535 < 100 && (reqnum + 1) % 0x1_0000_0000 >= 100
    ensures Number(65535, 1) == 1
  {
    FirstNumber(reqnum);
    FirstNumber(65535);
  }

  /** One call: the counter goes up by one, on the first use and after a wrap straight
      to 101. */
  lemma FirstNumber(reqnum: nat)
    requires reqnum < UINT32
    ensures Number(reqnum, 1) == if (reqnum + 1) % 0x1_0000_0000 < 100 then 101 else (reqnum + 1) % 65535
    ensures Number(0, 1) == 101
  {
    assert Advanced(reqnum, 1) == Advance(Advanced(reqnum, 0));
    assert Advanced(0, 1) == Advance(Advanced(0, 0));
  }

  // ---------------------------------------------------------------------------
  // Failover

  datatype ConnType = Unknown | TCP | UDP | HTTP

  datatype Conn = Conn(uuid: string, wrong: bool, types: ConnType)

  /** A request of node `self`, and what the network will do with it: whether
      connection i takes row r, and whether an HTTP post to it succeeds. */
  datatype Request = Request(
    self: string, bts: Bytes, num: nat, fid: nat,
    takes: (nat, nat) -> bool, posts: nat -> bool)

  /** The geometry of a connection that takes frames. */
  function GeometryOf(types: ConnType): (g: Geometry) {
    if types.UDP? then UDP_SPLIT else TCP_SPLIT
  }

  ghost predicate Eligible(q: Request, c: Conn) {
    c.uuid != q.self && !c.wrong
  }

  ghost predicate Framed(c: Conn) {
    c.types.TCP? || c.types.UDP?
  }

  /** How many rows connection i takes before the first refusal. */
  ghost function Taken(q: Request, i: nat, rows: nat): (n: nat)
    ensures n <= rows
    ensures forall r :: 0 <= r < n ==> q.takes(i, r)
    ensures n < rows ==> !q.takes(i, n)
  {
    if rows == 0 then 0
    else
      var n := Taken(q, i, rows - 1);
      if n == rows - 1 && q.takes(i, n) then rows else n
  }

  /** The frames of a request for a connection. */
  ghost function RowsFor(q: Request, c: Conn): seq<Bytes> {
    if Framed(c) then ReqFrames(GeometryOf(c.types), q.bts, q.num, q.fid) else []
  }

  /** Connection i would carry the whole request. */
  ghost predicate Carries(q: Request, c: Conn, i: nat) {
    && Eligible(q, c)
    && if Framed(c) then Taken(q, i, |RowsFor(q, c)|) == |RowsFor(q, c)|
       else c.types.HTTP? && q.posts(i)
  }

  /** The rows connection i takes when it is tried. */
  ghost function SentTo(q: Request, c: Conn, i: nat): seq<Bytes> {
    if Eligible(q, c) then RowsFor(q, c)[..Taken(q, i, |RowsFor(q, c)|)] else []
  }

  /** The writes to one connection, up to the first that fails. */
  method WriteRows(q: Request, rows: seq<Bytes>, i: nat) returns (n: nat)
    ensures n == Taken(q, i, |rows|)
  {
    n := 0;
    while n < |rows|
      invariant n <= |rows|
      invariant forall r :: 0 <= r < n ==> q.takes(i, r)
    {
      if !q.takes(i, n) {
        TakenIs(q, i, |rows|, n);
        return;
      }
      n := n + 1;
    }
    TakenIs(q, i, |rows|, n);
  }

  lemma TakenIs(q: Request, i: nat, rows: nat, n: nat)
    requires n <= rows && (forall r :: 0 <= r < n ==> q.takes(i, r)) && (n < rows ==> !q.takes(i, n))
    ensures Taken(q, i, rows) == n
  {
    var t := Taken(q, i, rows);
    assert n < t ==> q.takes(i, n);
  }

  /** Tries one eligible connection. */
  method TryConn(q: Request, c: Conn, i: nat, rows: seq<Bytes>) returns (got: seq<Bytes>, carried: bool)
    requires Eligible(q, c) && rows == RowsFor(q, c)
    ensures got == SentTo(q, c, i) && (carried <==> Carries(q, c, i))
  {
    var n := WriteRows(q, rows, i);
    got := rows[..n];
    match c.types
    case TCP => carried := n == |rows|;
    case UDP => carried := n == |rows|;
    case HTTP => carried := q.posts(i);
    case Unknown => carried := false;
  }

  /** The result of `connsCall`: the first connection that carries the request is
      chosen, those before it got what they took, those after it nothing. */
  ghost predicate Called(q: Request, conns: seq<Conn>, chosen: Option<nat>, sent: seq<seq<Bytes>>) {
    && |sent| == |conns|
    && (chosen.Some? ==> chosen.value < |conns| && Carries(q, conns[chosen.value], chosen.value))
    && forall i :: 0 <= i < |conns| ==>
         if chosen.Some? && i > chosen.value then sent[i] == []
         else sent[i] == SentTo(q, conns[i], i) && (Carries(q, conns[i], i) ==> chosen == Some(i))
  }

  /** `connsCall` up to the wait for the reply: the request gets its number, and
      then goes to the connections in turn. */
  method ConnsCall(numbering: Numbering, q: Request, conns: seq<Conn>)
    returns (num: nat, chosen: Option<nat>, sent: seq<seq<Bytes>>)
    requires numbering.Valid()
    modifies numbering
    ensures numbering.Valid() && Called(q.(num := num), conns, chosen, sent)
    ensures q.fid < WATCH_IN_MAX ==> num == q.fid && numbering.reqnum == old(numbering.reqnum)
    ensures q.fid >= WATCH_IN_MAX ==>
              numbering.reqnum == Advance(old(numbering.reqnum)) && num == Number(old(numbering.reqnum), 1)
  {
    FirstNumber(numbering.reqnum);
    num := numbering.Serial(q.fid);
    chosen, sent := TryConns(q.(num := num), conns);
  }

  /** The loop of `connsCall`. */
  method TryConns(q: Request, conns: seq<Conn>) returns (chosen: Option<nat>, sent: seq<seq<Bytes>>)
    ensures Called(q, conns, chosen, sent)
  {
    var tcpRow: seq<Bytes>, udpRow: seq<Bytes> := [], [];
    sent := [];
    for i := 0 to |conns|
      invariant |sent| == i
      invariant tcpRow == [] || tcpRow == ReqFrames(TCP_SPLIT, q.bts, q.num, q.fid)
      invariant udpRow == [] || udpRow == ReqFrames(UDP_SPLIT, q.bts, q.num, q.fid)
      invariant forall k :: 0 <= k < i ==> sent[k] == SentTo(q, conns[k], k) && !Carries(q, conns[k], k)
    {
      var conn := conns[i];
      var got: seq<Bytes>, carried := [], false;
      if conn.uuid != q.self && !conn.wrong {
        var rows: seq<Bytes> := [];
        if conn.types.TCP? {
          if |tcpRow| == 0 {
            tcpRow := MakeReqBody(TCP_SPLIT, q.bts, q.num, q.fid);
          }
          rows := tcpRow;
        } else if conn.types.UDP? {
          if |udpRow| == 0 {
            udpRow := MakeReqBody(UDP_SPLIT, q.bts, q.num, q.fid);
          }
          rows := udpRow;
        }
        got, carried := TryConn(q, conn, i, rows);
      }
      sent := sent + [got];
      if carried {
        return Some(i), Extended(sent, |conns|);
      }
    }
    chosen := None;
  }

  /** Connections that were not reached got nothing. */
  function Extended(sent: seq<seq<Bytes>>, n: nat): (all: seq<seq<Bytes>>)
    requires |sent| <= n
    ensures |all| == n && sent <= all
    ensures forall i :: |sent| <= i < n ==> all[i] == []
  {
    sent + seq(n - |sent|, i => [])
  }

  // ---------------------------------------------------------------------------
  // No request is complete at two nodes

  /** Node table `st`, fed what a connection got, completes message `num`. */
  ghost predicate CompletesAt(g: Geometry, st: Partials, rows: seq<Bytes>, num: nat) {
    exists t :: 0 <= t < |rows| && var r := OutAt(Feed, st, ParseAll(g, rows), t); r.Resp? && r.num == num
  }

  lemma InOrderSeen(toks: seq<Token>, num: nat)
    requires forall i :: 0 <= i < |toks| ==> toks[i] == Token(num, i)
    ensures Seen(toks, num) == All(|toks|)
  {
    forall s | s in All(|toks|) ensures s in Seen(toks, num) {
      assert toks[s].slot == s;
    }
  }

  lemma PrefixTokens(g: Geometry, ms: Traffic, num: nat, n: nat)
    requires WellFormed(g, ms) && num in ms && n <= Width(g, ms[num])
    ensures var toks := Whole(num, Width(g, ms[num]))[..n];
            && AllHonest(g, ms, toks) && Distinct(toks)
            && Frames(g, ms, toks) == FramesOf(g, ms[num])[..n]
  {
  }

  /** Call t of a node that gets the first n frames of a request in order. */
  lemma PrefixResponse(g: Geometry, st: Partials, ms: Traffic, num: nat, n: nat, t: nat)
    requires WellFormed(g, ms) && num in ms && ms.Keys !! st.Keys && t < n <= Width(g, ms[num])
    ensures OutAt(Feed, st, ParseAll(g, FramesOf(g, ms[num])[..n]), t)
         == if t + 1 == Width(g, ms[num]) then Expected(g, ms[num]) else NOTHING
  {
    hide Parse, Feed, FramesOf, WellFormed;
    var w := Width(g, ms[num]);
    var toks := Whole(num, w)[..n];
    PrefixTokens(g, ms, num, n);
    DeliveredOnLastArrival(g, ms, st, toks, t);
    InOrderSeen(toks[..t + 1], num);
    assert w - 1 in All(w) && (w - 1 in All(t + 1) <==> w == t + 1);
  }

  /** The first n frames of a request complete it exactly when they are all. */
  lemma PrefixCompletes(g: Geometry, st: Partials, m: Message, n: nat)
    requires WellFormed(g, map[m.num := m]) && m.num > 0 && m.fid > 0
    requires m.outcome.Success? && m.num !in st && n <= Width(g, m)
    ensures CompletesAt(g, st, FramesOf(g, m)[..n], m.num) <==> n == Width(g, m)
  {
    var rows, w := FramesOf(g, m)[..n], Width(g, m);
    forall t | 0 <= t < n
      ensures OutAt(Feed, st, ParseAll(g, rows), t) == if t + 1 == w then Expected(g, m) else NOTHING
    {
      PrefixResponse(g, st, map[m.num := m], m.num, n, t);
    }
    if n == w {
      assert OutAt(Feed, st, ParseAll(g, rows), w - 1) == Expected(g, m);
    }
  }

  /** The frames a connection is sent are all of its own kind's size: 1444 bytes on
      TCP, 534 on UDP. */
  lemma RowSizes(q: Request, conns: seq<Conn>, chosen: Option<nat>, sent: seq<seq<Bytes>>, i: nat)
    requires Called(q, conns, chosen, sent) && i < |conns|
    ensures conns[i].types == TCP ==> forall row :: row in sent[i] ==> |row| == 1444
    ensures conns[i].types == UDP ==> forall row :: row in sent[i] ==> |row| == 534
    ensures !conns[i].types.TCP? && !conns[i].types.UDP? ==> sent[i] == []
  {
    hide ReqFrames, Carries;
    FramesShape(TCP_SPLIT, q.bts, q.num, q.fid);
    FramesShape(UDP_SPLIT, q.bts, q.num, q.fid);
  }

  /** The node itself, and connections marked wrong, are passed over. */
  lemma PassedOver(q: Request, conns: seq<Conn>, chosen: Option<nat>, sent: seq<seq<Bytes>>, i: nat)
    requires Called(q, conns, chosen, sent) && i < |conns| && (conns[i].uuid == q.self || conns[i].wrong)
    ensures sent[i] == [] && chosen != Some(i)
  {
  }

  /** What a connection is sent: nothing after the chosen one; else its frames in order,
      up to the first that it refuses. */
  lemma SentExactly(q: Request, conns: seq<Conn>, chosen: Option<nat>, sent: seq<seq<Bytes>>, i: nat)
    requires Called(q, conns, chosen, sent) && i < |conns| && conns[i].uuid != q.self && !conns[i].wrong
    ensures chosen.Some? && chosen.value < i ==> sent[i] == []
    ensures !(chosen.Some? && chosen.value < i) && (conns[i].types == TCP || conns[i].types == UDP) ==>
              var rows := ReqFrames(if conns[i].types == TCP then TCP_SPLIT else UDP_SPLIT, q.bts, q.num, q.fid);
              && sent[i] <= rows && (forall r :: 0 <= r < |sent[i]| ==> q.takes(i, r))
              && (|sent[i]| < |rows| ==> !q.takes(i, |sent[i]|))
  {
  }

  /** The number of frames of a request on a connection. */
  ghost function RowCount(q: Request, types: ConnType): nat {
    if types == TCP then FrameCount(1430, |q.bts|) else FrameCount(520, |q.bts|)
  }

  /** A connection that can take the request: it is another node's, not marked wrong,
      and takes every frame, or the post to it succeeds. */
  ghost predicate Takes(q: Request, c: Conn, i: nat) {
    && c.uuid != q.self && !c.wrong
    && match c.types
       case TCP => forall r: nat :: r < RowCount(q, TCP) ==> q.takes(i, r)
       case UDP => forall r: nat :: r < RowCount(q, UDP) ==> q.takes(i, r)
       case HTTP => q.posts(i)
       case Unknown => false
  }

  lemma RowsCounted(q: Request, c: Conn)
    requires Framed(c)
    ensures |RowsFor(q, c)| == RowCount(q, c.types)
  {
    FramesShape(GeometryOf(c.types), q.bts, q.num, q.fid);
  }

  lemma TakesAll(q: Request, i: nat, rows: nat)
    ensures Taken(q, i, rows) == rows <==> forall r: nat :: r < rows ==> q.takes(i, r)
  {
    var n := Taken(q, i, rows);
    assert n < rows ==> !q.takes(i, n);
  }

  lemma TakesIsCarries(q: Request, c: Conn, i: nat)
    ensures Takes(q, c, i) <==> Carries(q, c, i)
  {
    hide RowsFor, RowCount, Taken;
    if Framed(c) {
      RowsCounted(q, c);
      TakesAll(q, i, |RowsFor(q, c)|);
    }
  }

  /** Exactly which connection is chosen: the first that can take the request; none if
      there is no such. */
  lemma ChosenExactly(q: Request, conns: seq<Conn>, chosen: Option<nat>, sent: seq<seq<Bytes>>, i: nat)
    requires Called(q, conns, chosen, sent) && i < |conns|
    ensures chosen == Some(i) <==>
              Takes(q, conns[i], i) && forall k: nat :: k < i ==> !Takes(q, conns[k], k)
    ensures chosen == None ==> !Takes(q, conns[i], i)
  {
    forall k: nat | k < |conns| ensures Takes(q, conns[k], k) <==> Carries(q, conns[k], k) {
      TakesIsCarries(q, conns[k], k);
    }
    hide Takes, Carries;
    if forall k: nat :: k < i ==> !Takes(q, conns[k], k) {
      assert chosen.Some? ==> Takes(q, conns[chosen.value], chosen.value);
    }
  }

  /** The failover law. Whatever writes succeed: among the nodes behind TCP
      connections, where frames have the TCP geometry, and those behind UDP
      connections, where they have the other, the request becomes complete at the
      chosen one and at no other, and if none is chosen, nowhere. */
  lemma OneNodeCompletes(
    q: Request, conns: seq<Conn>, chosen: Option<nat>, sent: seq<seq<Bytes>>, st: Partials, i: nat)
    requires Called(q, conns, chosen, sent) && i < |conns| && q.num !in st && 0 < q.num && 0 < q.fid
    ensures conns[i].types == TCP && Representable(TCP_SPLIT, q.bts, q.num, q.fid) ==>
              (CompletesAt(TCP_SPLIT, st, sent[i], q.num) <==> chosen == Some(i))
    ensures conns[i].types == UDP && Representable(UDP_SPLIT, q.bts, q.num, q.fid) ==>
              (CompletesAt(UDP_SPLIT, st, sent[i], q.num) <==> chosen == Some(i))
  {
    if Framed(conns[i]) && Representable(GeometryOf(conns[i].types), q.bts, q.num, q.fid) {
      CompletesIfChosen(q, conns, chosen, sent, st, i);
    }
  }

  lemma CompletesIfChosen(
    q: Request, conns: seq<Conn>, chosen: Option<nat>, sent: seq<seq<Bytes>>, st: Partials, i: nat)
    requires Called(q, conns, chosen, sent) && i < |conns| && Framed(conns[i]) && q.num !in st
    requires 0 < q.num && 0 < q.fid && Representable(GeometryOf(conns[i].types), q.bts, q.num, q.fid)
    ensures CompletesAt(GeometryOf(conns[i].types), st, sent[i], q.num) <==> chosen == Some(i)
  {
    var g, m := GeometryOf(conns[i].types), Message(q.num, q.fid, Success(q.bts));
    ChunkCount(g.bodySplit, q.bts);
    var n := |sent[i]|;
    assert RowsFor(q, conns[i]) == FramesOf(g, m);
    assert sent[i] == FramesOf(g, m)[..n];
    PrefixCompletes(g, st, m, n);
  }
}
