/** One table for many peers. `UdpListen` reassembles the requests of all its
    clients in one table, and clients number their requests alike. What a call
    can then return is any blend of equally shaped requests with one number. */
module Peers {
  import opened Common
  import opened Wire
  import opened Reassembler
  import opened Runs
  import opened Collector
  import opened Delivery

  /** Frame `token` of client `peer`. */
  datatype Parcel = Parcel(peer: nat, token: Token)

  /** The requests of each client. */
  type Clients = seq<Traffic>

  ghost predicate AllWellFormed(g: Geometry, clients: Clients) {
    forall p :: 0 <= p < |clients| ==> WellFormed(g, clients[p])
  }

  ghost predicate Mailed(g: Geometry, clients: Clients, parcels: seq<Parcel>) {
    forall i :: 0 <= i < |parcels| ==>
      parcels[i].peer < |clients| && Honest(g, clients[parcels[i].peer], parcels[i].token)
  }

  ghost function FramesMailed(g: Geometry, clients: Clients, parcels: seq<Parcel>): (f: seq<Bytes>)
    requires AllWellFormed(g, clients) && Mailed(g, clients, parcels)
    ensures |f| == |parcels|
  {
    seq(|parcels|, i requires 0 <= i < |parcels| => FrameOf(g, clients[parcels[i].peer], parcels[i].token))
  }

  /** Some client has a request `num` for function `fid` that takes w frames and
      whose slice i is `data`. */
  ghost predicate HasSlice(g: Geometry, clients: Clients, num: nat, fid: nat, w: nat, i: nat, data: Bytes) {
    exists p :: 0 <= p < |clients| && SliceOf(g, clients[p], num, fid, w, i, data)
  }

  ghost predicate SliceOf(g: Geometry, ms: Traffic, num: nat, fid: nat, w: nat, i: nat, data: Bytes) {
    && num in ms && ms[num].outcome.Success? && ms[num].fid == fid
    && Width(g, ms[num]) == w && i < w && Pieces(g, ms[num])[i] == data
  }

  /** Slices for every position, each from one client or another. */
  ghost predicate Blend(g: Geometry, clients: Clients, num: nat, fid: nat, parts: seq<Bytes>) {
    |parts| > 0 && forall i :: 0 <= i < |parts| ==> HasSlice(g, clients, num, fid, |parts|, i, parts[i])
  }

  /** A partial message is a blend with gaps. */
  ghost predicate Blending(g: Geometry, clients: Clients, num: nat, link: Link) {
    && |link.body| == link.buck > 1
    && forall i :: 0 <= i < link.buck && link.body[i] != [] ==>
         HasSlice(g, clients, num, link.funcid, link.buck, i, link.body[i])
  }

  ghost predicate AllBlending(g: Geometry, clients: Clients, st: Partials) {
    forall k, p {:trigger k in st, clients[p]} :: k in st && 0 <= p < |clients| && k in clients[p] ==>
      Blending(g, clients, k, st[k])
  }

  /** What a call may return: nothing, an error without an id, or a blend. */
  ghost predicate Blended(g: Geometry, clients: Clients, r: Resp) {
    && r.Resp?
    && (if r.num > 0 then
          r.err == None && exists parts :: Blend(g, clients, r.num, r.fid, parts) && r.data == Flatten(parts)
        else r.fid == 0 && r.data == [])
  }

  lemma BlendStored(g: Geometry, clients: Clients, num: nat, link: Link, slot: nat, data: Bytes)
    requires Blending(g, clients, num, link) && slot < link.buck
    requires HasSlice(g, clients, num, link.funcid, link.buck, slot, data)
    ensures Blending(g, clients, num, Filled(link, slot, data))
    ensures !HasGap(Filled(link, slot, data).body) ==>
              Blend(g, clients, num, link.funcid, Filled(link, slot, data).body)
  {
  }

  lemma KnownStep(g: Geometry, clients: Clients, st: Partials, num: nat, fid: nat, w: nat, slot: nat, data: Bytes)
    requires num in st && Blending(g, clients, num, st[num]) && num > 0
    requires HasSlice(g, clients, num, fid, w, slot, data) && slot < w
    ensures var (st', r) := FeedKnown(st, num, fid, w, slot + 1, data);
            && Blended(g, clients, r) && st' - {num} == st - {num}
            && (num in st' ==> Blending(g, clients, num, st'[num]))
  {
    if w == st[num].buck && fid == st[num].funcid {
      BlendStored(g, clients, num, st[num], slot, data);
    }
  }

  lemma FirstStep(g: Geometry, clients: Clients, num: nat, fid: nat, w: nat, slot: nat, data: Bytes)
    requires HasSlice(g, clients, num, fid, w, slot, data) && slot < w && w > 1
    ensures Blending(g, clients, num, Link(fid, w, EmptySlots(w)[slot := data], 1))
  {
  }

  lemma OneSlice(g: Geometry, clients: Clients, num: nat, fid: nat, data: Bytes)
    requires HasSlice(g, clients, num, fid, 1, 0, data) && num > 0
    ensures Blended(g, clients, Resp(num, fid, data, None))
  {
    assert Blend(g, clients, num, fid, [data]);
    assert Flatten([data]) == data + Flatten([]);
  }

  /** Only the entry of `num` changed, and it blends. */
  lemma StillBlending(g: Geometry, clients: Clients, st: Partials, st': Partials, num: nat)
    requires AllBlending(g, clients, st) && st' - {num} == st - {num}
    requires num in st' ==> Blending(g, clients, num, st'[num])
    ensures AllBlending(g, clients, st')
  {
    forall k, p {:trigger k in st', clients[p]} | k in st' && 0 <= p < |clients| && k in clients[p]
      ensures Blending(g, clients, k, st'[k])
    {
      if k != num {
        assert k in st' - {num} && k in st - {num} && st'[k] == (st' - {num})[k] == (st - {num})[k] == st[k];
      }
    }
  }

  lemma BodyStep(g: Geometry, clients: Clients, st: Partials, num: nat, fid: nat, w: nat, slot: nat, data: Bytes)
    requires num > 0 && HasSlice(g, clients, num, fid, w, slot, data) && slot < w
    requires num in st ==> Blending(g, clients, num, st[num])
    ensures var (st', r) := FeedBody(st, num, fid, w, slot + 1, data);
            && Blended(g, clients, r) && st' - {num} == st - {num}
            && (num in st' && num !in st ==> Blending(g, clients, num, st'[num]))
            && (num in st' && num in st ==> Blending(g, clients, num, st'[num]))
  {
    if w == 1 {
      OneSlice(g, clients, num, fid, data);
    } else if num in st {
      KnownStep(g, clients, st, num, fid, w, slot, data);
    } else {
      FirstStep(g, clients, num, fid, w, slot, data);
    }
  }

  lemma MailedMessage(g: Geometry, clients: Clients, p: nat, t: Token)
    requires AllWellFormed(g, clients) && p < |clients| && Honest(g, clients[p], t)
    ensures var m := clients[p][t.num]; m.num == t.num > 0 && t.slot < Width(g, m)
  {
    assert WellFormed(g, clients[p]);
  }

  /** What `ParseResp` does with it. */
  lemma FeedMailed(g: Geometry, st: Partials, ms: Traffic, t: Token)
    requires Honest(g, ms, t) && ms[t.num].num == t.num
    ensures var m := ms[t.num];
            match m.outcome
            case Failure(message) =>
              Feed(st, Reading(g, ms, t)) == (st, Resp(0, 0, [], Some(Remote(Cut(g, message)))))
            case Success(_) =>
              Feed(st, Reading(g, ms, t)) == FeedBody(st, t.num, m.fid, Width(g, m), t.slot + 1, Pieces(g, m)[t.slot])
  {
    hide FeedBody, Cut;
  }

  /** One frame of one client. */
  lemma ParcelStep(g: Geometry, clients: Clients, st: Partials, p: nat, t: Token)
    requires AllWellFormed(g, clients) && p < |clients| && Honest(g, clients[p], t) && AllBlending(g, clients, st)
    ensures var (st', r) := Feed(st, Reading(g, clients[p], t));
            AllBlending(g, clients, st') && Blended(g, clients, r)
  {
    MailedMessage(g, clients, p, t);
    hide Feed, FeedBody, Reading, AllBlending, Pieces, AllWellFormed, Blend;
    FeedMailed(g, st, clients[p], t);
    if clients[p][t.num].outcome.Success? {
      SliceStep(g, clients, st, p, clients[p][t.num], t.slot);
    }
  }

  lemma SliceStep(g: Geometry, clients: Clients, st: Partials, p: nat, m: Message, slot: nat)
    requires p < |clients| && m.num in clients[p] && clients[p][m.num] == m && m.num > 0
    requires m.outcome.Success? && slot < Width(g, m) && AllBlending(g, clients, st)
    ensures var (st', r) := FeedBody(st, m.num, m.fid, Width(g, m), slot + 1, Pieces(g, m)[slot]);
            AllBlending(g, clients, st') && Blended(g, clients, r)
  {
    hide FeedBody, Blended, Blending;
    var w, data := Width(g, m), Pieces(g, m)[slot];
    assert SliceOf(g, clients[p], m.num, m.fid, w, slot, data);
    BodyStep(g, clients, st, m.num, m.fid, w, slot, data);
    StillBlending(g, clients, st, FeedBody(st, m.num, m.fid, w, slot + 1, data).0, m.num);
  }

  lemma ParcelParses(g: Geometry, ms: Traffic, t: Token)
    requires WellFormed(g, ms) && Honest(g, ms, t)
    ensures Parse(g, FrameOf(g, ms, t)) == Reading(g, ms, t)
  {
    HonestParse(g, ms, [t]);
    assert ParseAll(g, Frames(g, ms, [t]))[0] == Readings(g, ms, [t])[0];
  }

  /** Whatever frames of whatever clients arrive, lost, repeated and reordered at
      will: no call panics, and what a call returns under an id is a blend. */
  lemma OnlyBlends(g: Geometry, clients: Clients, st: Partials, parcels: seq<Parcel>, t: nat)
    requires AllWellFormed(g, clients) && Mailed(g, clients, parcels) && AllBlending(g, clients, st) && t < |parcels|
    ensures Blended(g, clients, OutAt(Feed, st, ParseAll(g, FramesMailed(g, clients, parcels)), t))
  {
    var ps := ParseAll(g, FramesMailed(g, clients, parcels));
    var f, inv := Feed, st' => AllBlending(g, clients, st');
    forall i | 0 <= i < |ps| ensures ps[i] == Reading(g, clients[parcels[i].peer], parcels[i].token) {
      ParcelParses(g, clients[parcels[i].peer], parcels[i].token);
    }
    forall st', i {:trigger f(st', ps[..t][i])} | 0 <= i < t && inv(st') ensures inv(f(st', ps[..t][i]).0) {
      ParcelStep(g, clients, st', parcels[i].peer, parcels[i].token);
    }
    Preservation(f, inv, st, ps[..t]);
    ParcelStep(g, clients, After(Feed, st, ps[..t]), parcels[t].peer, parcels[t].token);
  }

  // ---------------------------------------------------------------------------
  // Every blend can happen

  /** Slices that fit together are the slices of the payload they make up. */
  lemma {:induction false} ChunksOfParts(size: nat, parts: seq<Bytes>)
    requires size > 0 && |parts| > 0 && |parts[|parts| - 1]| <= size
    requires |parts| > 1 ==> parts[|parts| - 1] != []
    requires forall i :: 0 <= i < |parts| - 1 ==> |parts[i]| == size
    ensures Chunks(size, Flatten(parts)) == parts
  {
    if |parts| == 1 {
      assert parts[1..] == [] && parts == [parts[0]];
      assert Flatten(parts) == parts[0] + [] == parts[0];
    } else {
      var rest := parts[1..];
      ChunksOfParts(size, rest);
      assert Flatten(parts) == parts[0] + Flatten(rest);
      assert Flatten(rest) != [] by {
        assert Chunks(size, Flatten(rest)) == rest;
        assert Chunks(size, [])[0] == [];
        assert rest[0] != [];
      }
      assert Flatten(parts)[size..] == Flatten(rest) && Flatten(parts)[..size] == parts[0];
    }
  }

  /** A blend has the shape of a message. */
  lemma BlendShape(g: Geometry, clients: Clients, num: nat, fid: nat, parts: seq<Bytes>)
    requires AllWellFormed(g, clients) && Blend(g, clients, num, fid, parts)
    ensures Chunks(g.bodySplit, Flatten(parts)) == parts
    ensures 1 <= num < MAX_UUID && 1 <= fid < MAX_FUNC && |parts| < MAX_BUCK
  {
    forall i | 0 <= i < |parts|
      ensures |parts[i]| <= g.bodySplit && (i + 1 < |parts| ==> |parts[i]| == g.bodySplit)
      ensures |parts| > 1 ==> parts[i] != []
      ensures 1 <= num < MAX_UUID && 1 <= fid < MAX_FUNC && |parts| < MAX_BUCK
    {
      var p :| 0 <= p < |clients| && SliceOf(g, clients[p], num, fid, |parts|, i, parts[i]);
      assert WellFormed(g, clients[p]);
      var m := clients[p][num];
      ChunkAt(g.bodySplit, m.outcome.data, i);
      PiecesOfSuccess(g, m);
    }
    assert HasSlice(g, clients, num, fid, |parts|, 0, parts[0]);
    ChunksOfParts(g.bodySplit, parts);
  }

  ghost predicate Mails(g: Geometry, clients: Clients, num: nat, fid: nat, parts: seq<Bytes>, parcels: seq<Parcel>) {
    && |parcels| == |parts|
    && forall i :: 0 <= i < |parts| ==>
         && parcels[i].token == Token(num, i) && parcels[i].peer < |clients|
         && SliceOf(g, clients[parcels[i].peer], num, fid, |parts|, i, parts[i])
  }

  lemma MailBlend(g: Geometry, clients: Clients, num: nat, fid: nat, parts: seq<Bytes>) returns (parcels: seq<Parcel>)
    requires Blend(g, clients, num, fid, parts)
    ensures Mails(g, clients, num, fid, parts, parcels)
  {
    parcels := [];
    for n := 0 to |parts|
      invariant |parcels| == n
      invariant forall i :: 0 <= i < n ==>
                  && parcels[i].token == Token(num, i) && parcels[i].peer < |clients|
                  && SliceOf(g, clients[parcels[i].peer], num, fid, |parts|, i, parts[i])
    {
      assert HasSlice(g, clients, num, fid, |parts|, n, parts[n]);
      var p :| 0 <= p < |clients| && SliceOf(g, clients[p], num, fid, |parts|, n, parts[n]);
      parcels := parcels + [Parcel(p, Token(num, n))];
    }
  }

  /** Nor is any blend excluded: each is delivered by some order of frames that the
      clients do send. */
  lemma EveryBlend(g: Geometry, clients: Clients, st: Partials, num: nat, fid: nat, parts: seq<Bytes>)
    returns (parcels: seq<Parcel>)
    requires AllWellFormed(g, clients) && Blend(g, clients, num, fid, parts) && num !in st
    ensures Mailed(g, clients, parcels) && parcels != []
    ensures OutAt(Feed, st, ParseAll(g, FramesMailed(g, clients, parcels)), |parcels| - 1)
            == Resp(num, fid, Flatten(parts), None)
  {
    hide Blend, Mails, WellFormed, Parse, Chunks, Flatten;
    parcels := MailBlend(g, clients, num, fid, parts);
    var m := BlendMessage(g, clients, num, fid, parts);
    SameReadings(g, clients, m, parcels);
    WholeDelivered(g, map[num := m], st, num);
  }

  lemma BlendMessage(g: Geometry, clients: Clients, num: nat, fid: nat, parts: seq<Bytes>) returns (m: Message)
    requires AllWellFormed(g, clients) && Blend(g, clients, num, fid, parts)
    ensures m == Message(num, fid, Success(Flatten(parts))) && Pieces(g, m) == parts && WellFormed(g, map[num := m])
  {
    BlendShape(g, clients, num, fid, parts);
    m := Message(num, fid, Success(Flatten(parts)));
  }

  /** Slice i of a blend reads as slice i of the message it makes up. */
  lemma SameReading(g: Geometry, clients: Clients, parcel: Parcel, m: Message, i: nat)
    requires AllWellFormed(g, clients) && parcel.peer < |clients| && parcel.token == Token(m.num, i)
    requires m.outcome.Success? && i < Width(g, m)
    requires SliceOf(g, clients[parcel.peer], m.num, m.fid, Width(g, m), i, Pieces(g, m)[i])
    ensures Honest(g, clients[parcel.peer], parcel.token)
    ensures Parse(g, FrameOf(g, clients[parcel.peer], parcel.token)) == Reading(g, map[m.num := m], Token(m.num, i))
  {
    assert WellFormed(g, clients[parcel.peer]);
    ParcelParses(g, clients[parcel.peer], parcel.token);
  }

  lemma SameReadings(g: Geometry, clients: Clients, m: Message, parcels: seq<Parcel>)
    requires AllWellFormed(g, clients) && m.outcome.Success? && WellFormed(g, map[m.num := m])
    requires Mails(g, clients, m.num, m.fid, Pieces(g, m), parcels)
    ensures Mailed(g, clients, parcels)
    ensures AllHonest(g, map[m.num := m], Whole(m.num, Width(g, m)))
    ensures ParseAll(g, FramesMailed(g, clients, parcels))
         == ParseAll(g, Frames(g, map[m.num := m], Whole(m.num, Width(g, m))))
  {
    hide Parse, SliceOf, WellFormed, FrameOf, Reading, Pieces;
    var ms, toks := map[m.num := m], Whole(m.num, Width(g, m));
    HonestParse(g, ms, toks);
    forall i | 0 <= i < |parcels|
      ensures parcels[i].peer < |clients| && Honest(g, clients[parcels[i].peer], parcels[i].token)
    {
      SameReading(g, clients, parcels[i], m, i);
    }
    forall i | 0 <= i < |parcels|
      ensures ParseAll(g, FramesMailed(g, clients, parcels))[i] == Readings(g, ms, toks)[i]
    {
      SameReading(g, clients, parcels[i], m, i);
    }
  }

  lemma WholeDelivered(g: Geometry, ms: Traffic, st: Partials, num: nat)
    requires WellFormed(g, ms) && ms.Keys == {num} && num !in st && ms[num].outcome.Success?
    ensures var toks := Whole(num, Width(g, ms[num]));
            AllHonest(g, ms, toks) && Response(g, ms, st, toks, |toks| - 1) == Expected(g, ms[num])
  {
    var toks := Whole(num, Width(g, ms[num]));
    hide Complete, Response;
    DeliveredOnLastArrival(g, ms, st, toks, |toks| - 1);
    assert toks[..|toks|] == toks;
    WholeIsComplete(g, ms, num);
  }

  // ---------------------------------------------------------------------------
  // What one client's frame does to another's message

  /** A request of one frame is delivered at once, and passes by a partial message of
      its number. */
  lemma OneFramePassesBy(g: Geometry, clients: Clients, st: Partials, parcel: Parcel)
    requires AllWellFormed(g, clients) && parcel.peer < |clients| && Honest(g, clients[parcel.peer], parcel.token)
    requires var m := clients[parcel.peer][parcel.token.num]; m.outcome.Success? && Width(g, m) == 1
    ensures var m := clients[parcel.peer][parcel.token.num];
            Feed(st, Parse(g, FrameOf(g, clients[parcel.peer], parcel.token)))
            == (st, Resp(parcel.token.num, m.fid, m.outcome.data, None))
  {
    var m := clients[parcel.peer][parcel.token.num];
    ParcelParses(g, clients[parcel.peer], parcel.token);
    MailedMessage(g, clients, parcel.peer, parcel.token);
    PiecesOfSuccess(g, m);
    WholePassesBy(st, Reading(g, clients[parcel.peer], parcel.token));
  }

  /** Of two clients' slices for one place in requests of one shape, the first to come
      is kept. */
  lemma FirstClientStays(g: Geometry, clients: Clients, st: Partials, parcel: Parcel)
    requires AllWellFormed(g, clients) && parcel.peer < |clients| && Honest(g, clients[parcel.peer], parcel.token)
    requires var m := clients[parcel.peer][parcel.token.num];
             && m.outcome.Success? && Width(g, m) > 1 && m.num in st
             && st[m.num].buck == |st[m.num].body| == Width(g, m) && st[m.num].funcid == m.fid
             && st[m.num].body[parcel.token.slot] != []
    ensures Feed(st, Parse(g, FrameOf(g, clients[parcel.peer], parcel.token))) == (st, NOTHING)
  {
    ParcelParses(g, clients[parcel.peer], parcel.token);
    MailedMessage(g, clients, parcel.peer, parcel.token);
    FirstComeStays(st, Reading(g, clients[parcel.peer], parcel.token));
  }

  // ---------------------------------------------------------------------------
  // A misfit starts over

  /** All of these frames come from one client. */
  ghost function MailedBy(p: nat, toks: seq<Token>): (parcels: seq<Parcel>)
    ensures |parcels| == |toks|
  {
    seq(|toks|, i requires 0 <= i < |toks| => Parcel(p, toks[i]))
  }

  lemma MailedByOne(g: Geometry, clients: Clients, p: nat, toks: seq<Token>)
    requires AllWellFormed(g, clients) && p < |clients| && AllHonest(g, clients[p], toks)
    ensures WellFormed(g, clients[p]) && Mailed(g, clients, MailedBy(p, toks))
    ensures FramesMailed(g, clients, MailedBy(p, toks)) == Frames(g, clients[p], toks)
  {
  }

  /** Client `first.peer` sends a slice that does not fit the partial message of its
      number. */
  ghost predicate Misfit(g: Geometry, clients: Clients, st: Partials, first: Parcel) {
    && first.peer < |clients| && Honest(g, clients[first.peer], first.token)
    && first.token.num in st
    && var m := clients[first.peer][first.token.num];
       && m.outcome.Success? && Width(g, m) > 1
       && (m.fid != st[first.token.num].funcid || Width(g, m) != st[first.token.num].buck)
  }

  /** It is refused, and leaves no partial message of its number. */
  lemma MisfitForgets(g: Geometry, clients: Clients, st: Partials, first: Parcel)
    requires AllWellFormed(g, clients) && Misfit(g, clients, st, first)
    ensures Feed(st, Parse(g, FrameOf(g, clients[first.peer], first.token)))
         == (st - {first.token.num}, Resp(0, 0, [], Some(RecvWrong)))
  {
    ParcelParses(g, clients[first.peer], first.token);
    MailedMessage(g, clients, first.peer, first.token);
    MismatchForgets(st, Reading(g, clients[first.peer], first.token));
  }

  /** So nothing that was pending before gets into what follows: let all frames of one
      client's request of that number come next, in any order. The last of them
      delivers exactly that request, the others return nothing, and the table is
      left without the number and otherwise as it was. */
  lemma StartsOver(g: Geometry, clients: Clients, st: Partials, first: Parcel, p: nat, toks: seq<Token>)
    requires AllWellFormed(g, clients) && Misfit(g, clients, st, first) && p < |clients|
    requires var num := first.token.num;
             && num in clients[p] && clients[p][num].outcome.Success?
             && OnceEach(g, map[num := clients[p][num]], toks) && Complete(g, map[num := clients[p][num]], toks, num)
    ensures var parcels := [first] + MailedBy(p, toks);
            && Mailed(g, clients, parcels)
            && var ps := ParseAll(g, FramesMailed(g, clients, parcels));
               && OutAt(Feed, st, ps, 0) == Resp(0, 0, [], Some(RecvWrong))
               && (forall t :: 1 <= t < |toks| ==> OutAt(Feed, st, ps, t) == NOTHING)
               && OutAt(Feed, st, ps, |toks|)
                  == Resp(first.token.num, clients[p][first.token.num].fid,
                          clients[p][first.token.num].outcome.data, None)
               && After(Feed, st, ps) == st - {first.token.num}
  {
    var num := first.token.num;
    var ms := map[num := clients[p][num]];
    OneOf(g, clients, p, num, toks);
    MisfitForgets(g, clients, st, first);
    MisfitFirst(g, clients, first, p, toks);
    var p0 := Parse(g, FrameOf(g, clients[first.peer], first.token));
    hide Parse, Feed, FrameOf, Complete, WellFormed, Misfit, FramesMailed, Frames, Mailed, OnceEach, AllHonest;
    RestartedRun(g, ms, st, p0, num, toks);
  }

  lemma RestartedRun(g: Geometry, ms: Traffic, st: Partials, p0: Parsed, num: nat, toks: seq<Token>)
    requires WellFormed(g, ms) && ms.Keys == {num} && ms[num].num == num && ms[num].outcome.Success?
    requires Feed(st, p0) == (st - {num}, Resp(0, 0, [], Some(RecvWrong)))
    requires OnceEach(g, ms, toks) && Complete(g, ms, toks, num)
    ensures var ps := [p0] + ParseAll(g, Frames(g, ms, toks));
            && OutAt(Feed, st, ps, 0) == Resp(0, 0, [], Some(RecvWrong))
            && (forall t :: 1 <= t < |toks| ==> OutAt(Feed, st, ps, t) == NOTHING)
            && OutAt(Feed, st, ps, |toks|) == Resp(num, ms[num].fid, ms[num].outcome.data, None)
            && After(Feed, st, ps) == st - {num}
  {
    hide Parse, Feed, FrameOf, Complete, WellFormed, Distinct, OutAt;
    var frames := ParseAll(g, Frames(g, ms, toks));
    var ps := [p0] + frames;
    RunCons(Feed, st, p0, frames);
    OneRequest(g, ms, st - {num}, num, toks);
    forall t | 1 <= t <= |toks|
      ensures OutAt(Feed, st, ps, t) == Response(g, ms, st - {num}, toks, t - 1)
    {
      assert OutAt(Feed, st, ps, t - 1 + 1) == OutAt(Feed, st - {num}, frames, t - 1);
    }
  }

  lemma MisfitFirst(g: Geometry, clients: Clients, first: Parcel, p: nat, toks: seq<Token>)
    requires AllWellFormed(g, clients) && first.peer < |clients| && Honest(g, clients[first.peer], first.token)
    requires p < |clients| && AllHonest(g, clients[p], toks)
    ensures WellFormed(g, clients[p]) && WellFormed(g, clients[first.peer])
    ensures Mailed(g, clients, [first] + MailedBy(p, toks))
    ensures ParseAll(g, FramesMailed(g, clients, [first] + MailedBy(p, toks)))
         == [Parse(g, FrameOf(g, clients[first.peer], first.token))] + ParseAll(g, Frames(g, clients[p], toks))
  {
    hide Parse, FrameOf, Honest;
    MailedByOne(g, clients, p, toks);
    MailedCons(g, clients, first, MailedBy(p, toks));
    hide FramesMailed, Frames, Mailed;
    ParseAllCons(g, FrameOf(g, clients[first.peer], first.token), Frames(g, clients[p], toks));
  }

  lemma MailedCons(g: Geometry, clients: Clients, first: Parcel, rest: seq<Parcel>)
    requires AllWellFormed(g, clients) && first.peer < |clients| && Honest(g, clients[first.peer], first.token)
    requires Mailed(g, clients, rest)
    ensures WellFormed(g, clients[first.peer]) && Mailed(g, clients, [first] + rest)
    ensures FramesMailed(g, clients, [first] + rest)
         == [FrameOf(g, clients[first.peer], first.token)] + FramesMailed(g, clients, rest)
  {
    hide FrameOf, Honest, WellFormed;
    var all := [first] + rest;
    forall i | 0 <= i < |all| ensures all[i].peer < |clients| && Honest(g, clients[all[i].peer], all[i].token) {
      assert i > 0 ==> all[i] == rest[i - 1];
    }
  }

  lemma ParseAllCons(g: Geometry, f: Bytes, frames: seq<Bytes>)
    ensures ParseAll(g, [f] + frames) == [Parse(g, f)] + ParseAll(g, frames)
  {
  }

  /** The frames of one request, seen as those of a client that has no other. */
  lemma OneOf(g: Geometry, clients: Clients, p: nat, num: nat, toks: seq<Token>)
    requires AllWellFormed(g, clients) && p < |clients| && num in clients[p]
    requires AllHonest(g, map[num := clients[p][num]], toks)
    ensures WellFormed(g, clients[p]) && WellFormed(g, map[num := clients[p][num]]) && clients[p][num].num == num
    ensures AllHonest(g, clients[p], toks)
    ensures Frames(g, clients[p], toks) == Frames(g, map[num := clients[p][num]], toks)
  {
  }

  lemma OneRequest(g: Geometry, ms: Traffic, st: Partials, num: nat, toks: seq<Token>)
    requires WellFormed(g, ms) && ms.Keys == {num} && ms[num].num == num && num !in st && ms[num].outcome.Success?
    requires OnceEach(g, ms, toks) && Complete(g, ms, toks, num)
    ensures toks != []
    ensures forall t :: 0 <= t < |toks| - 1 ==> Response(g, ms, st, toks, t) == NOTHING
    ensures Response(g, ms, st, toks, |toks| - 1) == Resp(num, ms[num].fid, ms[num].outcome.data, None)
    ensures Table(g, ms, st, toks) == st
  {
    assert 0 in All(Width(g, ms[num]));
    forall t | 0 <= t < |toks| ensures toks[t].num == num {
      assert Honest(g, ms, toks[t]);
    }
    hide Response, Complete, WellFormed, AllHonest, Distinct, Table, Width;
    ExactlyOnce(g, ms, st, toks);
    LastOfOne(toks, num);
  }

  lemma LastOfOne(toks: seq<Token>, num: nat)
    requires forall t :: 0 <= t < |toks| ==> toks[t].num == num
    ensures forall t :: 0 <= t < |toks| ==> (LastArrival(toks, t, num) <==> t == |toks| - 1)
  {
    forall t | 0 <= t < |toks| - 1 ensures !LastArrival(toks, t, num) {
      assert toks[|toks| - 1].num == num;
    }
  }

  // ---------------------------------------------------------------------------
  // When clients do not mix

  /** Some client has this very request. */
  ghost predicate IsRequest(g: Geometry, clients: Clients, num: nat, fid: nat, parts: seq<Bytes>) {
    exists p :: 0 <= p < |clients| && Sends(g, clients[p], num, fid, parts)
  }

  ghost predicate Sends(g: Geometry, ms: Traffic, num: nat, fid: nat, parts: seq<Bytes>) {
    num in ms && ms[num].outcome.Success? && ms[num].fid == fid && Pieces(g, ms[num]) == parts
  }

  /** Take any two requests of one number, function and frame count, and put one
      slice of the second into the first: that again is some client's request. */
  ghost predicate Exchangeable(g: Geometry, clients: Clients, num: nat) {
    forall fid, a, b, i: nat ::
      IsRequest(g, clients, num, fid, a) && IsRequest(g, clients, num, fid, b) && |a| == |b| && i < |a| ==>
      IsRequest(g, clients, num, fid, a[i := b[i]])
  }

  lemma SlicesOfRequest(g: Geometry, clients: Clients, num: nat, fid: nat, parts: seq<Bytes>, i: nat)
    requires IsRequest(g, clients, num, fid, parts) && i < |parts|
    ensures HasSlice(g, clients, num, fid, |parts|, i, parts[i])
  {
    var p :| 0 <= p < |clients| && Sends(g, clients[p], num, fid, parts);
    assert SliceOf(g, clients[p], num, fid, |parts|, i, parts[i]);
  }

  lemma RequestOfSlice(g: Geometry, clients: Clients, num: nat, fid: nat, w: nat, i: nat, data: Bytes)
    returns (parts: seq<Bytes>)
    requires HasSlice(g, clients, num, fid, w, i, data)
    ensures IsRequest(g, clients, num, fid, parts) && |parts| == w && i < w && parts[i] == data
  {
    var p :| 0 <= p < |clients| && SliceOf(g, clients[p], num, fid, w, i, data);
    parts := Pieces(g, clients[p][num]);
    assert Sends(g, clients[p], num, fid, parts);
  }

  lemma ExchangedBlends(
    g: Geometry, clients: Clients, num: nat, fid: nat, a: seq<Bytes>, b: seq<Bytes>, i: nat)
    requires IsRequest(g, clients, num, fid, a) && IsRequest(g, clients, num, fid, b) && |a| == |b| && i < |a|
    ensures Blend(g, clients, num, fid, a[i := b[i]])
  {
    var parts := a[i := b[i]];
    forall j | 0 <= j < |parts| ensures HasSlice(g, clients, num, fid, |parts|, j, parts[j]) {
      if j == i {
        SlicesOfRequest(g, clients, num, fid, b, j);
      } else {
        SlicesOfRequest(g, clients, num, fid, a, j);
      }
    }
  }

  /** A request that begins like the blend, for as long as asked. */
  lemma {:induction false} ExchangedSoFar(g: Geometry, clients: Clients, num: nat, fid: nat, parts: seq<Bytes>, n: nat)
    returns (a: seq<Bytes>)
    requires Exchangeable(g, clients, num) && Blend(g, clients, num, fid, parts) && n <= |parts|
    ensures IsRequest(g, clients, num, fid, a) && |a| == |parts| && a[..n] == parts[..n]
  {
    if n == 0 {
      assert HasSlice(g, clients, num, fid, |parts|, 0, parts[0]);
      a := RequestOfSlice(g, clients, num, fid, |parts|, 0, parts[0]);
    } else {
      var before := ExchangedSoFar(g, clients, num, fid, parts, n - 1);
      a := ExchangeNext(g, clients, num, fid, parts, n - 1, before);
    }
  }

  lemma ExchangeNext(
    g: Geometry, clients: Clients, num: nat, fid: nat, parts: seq<Bytes>, n: nat, before: seq<Bytes>)
    returns (a: seq<Bytes>)
    requires Exchangeable(g, clients, num) && Blend(g, clients, num, fid, parts) && n < |parts|
    requires IsRequest(g, clients, num, fid, before) && |before| == |parts| && before[..n] == parts[..n]
    ensures IsRequest(g, clients, num, fid, a) && |a| == |parts| && a[..n + 1] == parts[..n + 1]
  {
    assert HasSlice(g, clients, num, fid, |parts|, n, parts[n]);
    hide HasSlice, Blend, IsRequest;
    var b := RequestOfSlice(g, clients, num, fid, |parts|, n, parts[n]);
    a := before[n := b[n]];
    PrefixSnoc(parts, n);
    PrefixSnoc(a, n);
    assert a[..n] == before[..n];
  }

  /** Exactly when clients do not mix: every blend, and so everything that is ever
      delivered under number `num`, is the request of some client if and only if
      requests of one shape can exchange slices without leaving the requests that
      clients have. */
  lemma NothingMixesExactly(g: Geometry, clients: Clients, num: nat)
    ensures (forall fid, parts :: Blend(g, clients, num, fid, parts) ==> IsRequest(g, clients, num, fid, parts))
       <==> Exchangeable(g, clients, num)
  {
    if Exchangeable(g, clients, num) {
      forall fid, parts | Blend(g, clients, num, fid, parts) ensures IsRequest(g, clients, num, fid, parts) {
        var a := ExchangedSoFar(g, clients, num, fid, parts, |parts|);
        assert a[..|parts|] == a && parts[..|parts|] == parts;
      }
    }
    if forall fid, parts :: Blend(g, clients, num, fid, parts) ==> IsRequest(g, clients, num, fid, parts) {
      forall fid, a, b, i: nat | IsRequest(g, clients, num, fid, a) && IsRequest(g, clients, num, fid, b)
                                 && |a| == |b| && i < |a|
        ensures IsRequest(g, clients, num, fid, a[i := b[i]])
      {
        ExchangedBlends(g, clients, num, fid, a, b, i);
      }
    }
  }

  ghost function Repeated(x: byte, n: nat): (b: Bytes)
    ensures |b| == n
  {
    seq(n, i => x)
  }

  /** A payload one byte longer than a frame, all of its bytes x. */
  ghost function Long(g: Geometry, num: nat, fid: nat, x: byte): Message {
    Message(num, fid, Success(Repeated(x, g.bodySplit + 1)))
  }

  lemma LongPieces(g: Geometry, num: nat, fid: nat, x: byte)
    ensures Pieces(g, Long(g, num, fid, x)) == [Repeated(x, g.bodySplit), [x]]
  {
    var data := Repeated(x, g.bodySplit + 1);
    assert data[..g.bodySplit] == Repeated(x, g.bodySplit) && data[g.bodySplit..] == [x];
    assert Chunks(g.bodySplit, [x]) == [[x]];
  }

  /** Two clients call one function under one number, one sending zeros and the other
      ones, one byte more than a frame holds. The server can get zeros with a one at
      the end, which neither sent. */
  lemma NobodysRequest(g: Geometry, st: Partials, num: nat, fid: nat) returns (parcels: seq<Parcel>)
    requires 1 <= num < MAX_UUID && 1 <= fid < MAX_FUNC && num !in st
    ensures var clients := [map[num := Long(g, num, fid, 0)], map[num := Long(g, num, fid, 1)]];
            var mixed := Repeated(0, g.bodySplit) + [1];
            && AllWellFormed(g, clients) && Mailed(g, clients, parcels) && parcels != []
            && OutAt(Feed, st, ParseAll(g, FramesMailed(g, clients, parcels)), |parcels| - 1)
               == Resp(num, fid, mixed, None)
            && Success(mixed) != Long(g, num, fid, 0).outcome && Success(mixed) != Long(g, num, fid, 1).outcome
  {
    var clients := [map[num := Long(g, num, fid, 0)], map[num := Long(g, num, fid, 1)]];
    var parts := [Repeated(0, g.bodySplit), [1]];
    LongPieces(g, num, fid, 0);
    LongPieces(g, num, fid, 1);
    assert SliceOf(g, clients[0], num, fid, 2, 0, parts[0]);
    assert SliceOf(g, clients[1], num, fid, 2, 1, parts[1]);
    assert Flatten(parts) == Repeated(0, g.bodySplit) + [1] by {
      assert parts[1..] == [[1]] && [[1]][1..] == [];
    }
    NotUniform(g, Repeated(0, g.bodySplit) + [1]);
    hide Pieces, Flatten, Chunks, Parse, Feed;
    parcels := EveryBlend(g, clients, st, num, fid, parts);
  }

  lemma NotUniform(g: Geometry, mixed: Bytes)
    requires mixed == Repeated(0, g.bodySplit) + [1]
    ensures mixed != Repeated(0, g.bodySplit + 1) && mixed != Repeated(1, g.bodySplit + 1)
  {
    assert mixed[0] == 0 && mixed[g.bodySplit] == 1;
    assert Repeated(0, g.bodySplit + 1)[g.bodySplit] == 0 && Repeated(1, g.bodySplit + 1)[0] == 1;
  }
}
