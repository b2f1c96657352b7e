/** A remote call from end to end: request frames reach the server in any order,
    reply frames come back in any order, and each waiting caller gets its own
    reply or nothing. */
module RoundTrip {
  import opened Wire
  import opened Reassembler
  import opened Runs
  import opened Collector
  import opened Delivery
  import opened Repetition
  import opened Client
  import opened Channels
  import opened Server

  /** Requests always carry a payload; only replies report errors. */
  ghost predicate Requests(g: Geometry, ms: Traffic) {
    WellFormed(g, ms) && forall k :: k in ms ==> ms[k].outcome.Success?
  }

  ghost function Reply(m: Message, handler: Handler): Message
    requires m.outcome.Success?
  {
    Message(m.num, m.fid, handler(m.fid, m.outcome.data))
  }

  ghost function Replies(g: Geometry, ms: Traffic, handler: Handler): (rs: Traffic)
    requires Requests(g, ms)
    ensures rs.Keys == ms.Keys
  {
    map k | k in ms :: Reply(ms[k], handler)
  }

  // ---------------------------------------------------------------------------
  // The server

  /** What the server writes for each call of a run. */
  ghost function Rows(g: Geometry, ms: Traffic, st: Partials, up: seq<Token>, handler: Handler): (rows: seq<seq<Bytes>>)
    requires WellFormed(g, ms) && AllHonest(g, ms, up)
    ensures |rows| == |up|
  {
    seq(|up|, t requires 0 <= t < |up| => Answer(g, handler, Response(g, ms, st, up, t)))
  }

  /** The first n rows, as the stream they make. */
  ghost function Joined<T>(rows: seq<seq<T>>, n: nat): seq<T>
    requires n <= |rows|
  {
    if n == 0 then [] else Joined(rows, n - 1) + rows[n - 1]
  }

  /** All frames the server writes during a run. */
  ghost function Written(g: Geometry, ms: Traffic, handler: Handler, st: Partials, up: seq<Token>): seq<Bytes>
    requires WellFormed(g, ms) && AllHonest(g, ms, up)
  {
    Joined(Rows(g, ms, st, up, handler), |up|)
  }

  /** Arrival t completes a request. */
  ghost predicate Completes(g: Geometry, ms: Traffic, up: seq<Token>, t: nat)
    requires t < |up| && up[t].num in ms
  {
    Complete(g, ms, up[..t + 1], up[t].num)
  }

  /** The reply frames each request frame causes. */
  ghost function TokenRows(g: Geometry, ms: Traffic, rs: Traffic, up: seq<Token>): (rows: seq<seq<Token>>)
    requires AllHonest(g, ms, up) && rs.Keys == ms.Keys
    ensures |rows| == |up|
  {
    seq(|up|, t requires 0 <= t < |up| =>
      if Completes(g, ms, up, t) then Whole(up[t].num, Width(g, rs[up[t].num])) else [])
  }

  /** The reply frames the first n request frames cause. */
  ghost function ReplyTokens(g: Geometry, ms: Traffic, rs: Traffic, up: seq<Token>, n: nat): seq<Token>
    requires n <= |up| && AllHonest(g, ms, up) && rs.Keys == ms.Keys
  {
    Joined(TokenRows(g, ms, rs, up), n)
  }

  lemma WholeIs(num: nat, w: nat)
    ensures Distinct(Whole(num, w))
    ensures forall t: Token :: t in Whole(num, w) <==> t.num == num && t.slot < w
  {
    forall t: Token | t.num == num && t.slot < w ensures t in Whole(num, w) {
      assert Whole(num, w)[t.slot] == t;
    }
  }

  lemma DistinctAppend<T>(a: seq<T>, b: seq<T>)
    requires Distinct(a) && Distinct(b) && forall x :: x in a ==> x !in b
    ensures Distinct(a + b)
  {
    forall i, j | 0 <= i < j < |a + b| ensures (a + b)[i] != (a + b)[j] {
      if i < |a| <= j {
        assert a[i] in a && b[j - |a|] in b;
      }
    }
  }

  /** Request k is complete after n arrivals. */
  ghost predicate CompleteAfter(g: Geometry, ms: Traffic, up: seq<Token>, n: nat, k: nat)
    requires n <= |up|
  {
    k in ms && Complete(g, ms, up[..n], k)
  }

  /** One more arrival completes at most its own request, and only if that was
      incomplete. */
  lemma CompleteNext(g: Geometry, ms: Traffic, up: seq<Token>, n: nat, k: nat)
    requires OnceEach(g, ms, up) && n < |up|
    ensures CompleteAfter(g, ms, up, n + 1, k) <==>
              CompleteAfter(g, ms, up, n, k) || (k == up[n].num && Completes(g, ms, up, n))
    ensures !CompleteAfter(g, ms, up, n, up[n].num)
  {
    OpenSlot(g, ms, up, n);
  }

  /** The tokens sent so far are all those of the replies to complete requests. */
  ghost predicate SentSoFar(g: Geometry, ms: Traffic, rs: Traffic, up: seq<Token>, sent: seq<Token>, n: nat)
    requires n <= |up|
  {
    forall t: Token :: t in sent <==> t.num in rs && t.slot < Width(g, rs[t.num]) && CompleteAfter(g, ms, up, n, t.num)
  }

  /** The tokens sent after one more arrival. */
  lemma SentNext(g: Geometry, ms: Traffic, rs: Traffic, up: seq<Token>, n: nat, sent: seq<Token>)
    requires OnceEach(g, ms, up) && rs.Keys == ms.Keys && n < |up|
    requires SentSoFar(g, ms, rs, up, sent, n) && Distinct(sent)
    ensures var num := up[n].num;
            var row := if Completes(g, ms, up, n) then Whole(num, Width(g, rs[num])) else [];
            SentSoFar(g, ms, rs, up, sent + row, n + 1) && Distinct(sent + row)
  {
    var num := up[n].num;
    WholeIs(num, Width(g, rs[num]));
    forall k ensures CompleteAfter(g, ms, up, n + 1, k) <==>
                       CompleteAfter(g, ms, up, n, k) || (k == num && Completes(g, ms, up, n)) {
      CompleteNext(g, ms, up, n, k);
    }
    if Completes(g, ms, up, n) {
      CompleteNext(g, ms, up, n, num);
      DistinctAppend(sent, Whole(num, Width(g, rs[num])));
    } else {
      assert sent + [] == sent;
    }
  }

  /** The rows written for the first n arrivals are what they should be. */
  ghost predicate RepliesSent(g: Geometry, ms: Traffic, rs: Traffic, up: seq<Token>, n: nat)
    requires n <= |up| && AllHonest(g, ms, up) && rs.Keys == ms.Keys
  {
    var sent := ReplyTokens(g, ms, rs, up, n);
    SentSoFar(g, ms, rs, up, sent, n) && Distinct(sent)
  }

  lemma RepliesSentFirst(g: Geometry, ms: Traffic, rs: Traffic, up: seq<Token>)
    requires AllHonest(g, ms, up) && rs.Keys == ms.Keys
    ensures RepliesSent(g, ms, rs, up, 0)
  {
    forall k | k in ms ensures !CompleteAfter(g, ms, up, 0, k) {
      assert 0 in All(Width(g, ms[k]));
      assert Seen(up[..0], k) == {};
    }
  }

  lemma RepliesSentNext(g: Geometry, ms: Traffic, rs: Traffic, up: seq<Token>, n: nat)
    requires OnceEach(g, ms, up) && rs.Keys == ms.Keys && n < |up| && RepliesSent(g, ms, rs, up, n)
    ensures RepliesSent(g, ms, rs, up, n + 1)
  {
    hide SentSoFar, Distinct, Complete;
    SentNext(g, ms, rs, up, n, ReplyTokens(g, ms, rs, up, n));
  }

  lemma {:induction false} RepliesSentAlways(g: Geometry, ms: Traffic, rs: Traffic, up: seq<Token>, n: nat)
    requires OnceEach(g, ms, up) && rs.Keys == ms.Keys && n <= |up|
    ensures RepliesSent(g, ms, rs, up, n)
  {
    hide RepliesSent;
    if n == 0 {
      RepliesSentFirst(g, ms, rs, up);
    } else {
      RepliesSentAlways(g, ms, rs, up, n - 1);
      RepliesSentNext(g, ms, rs, up, n - 1);
    }
  }

  lemma FramesAppend(g: Geometry, ms: Traffic, a: seq<Token>, b: seq<Token>)
    requires WellFormed(g, ms) && AllHonest(g, ms, a) && AllHonest(g, ms, b)
    ensures Frames(g, ms, a + b) == Frames(g, ms, a) + Frames(g, ms, b)
  {
  }

  lemma WholeFrames(g: Geometry, rs: Traffic, num: nat)
    requires WellFormed(g, rs) && num in rs
    ensures AllHonest(g, rs, Whole(num, Width(g, rs[num])))
    ensures Frames(g, rs, Whole(num, Width(g, rs[num]))) == FramesOf(g, rs[num])
  {
  }

  lemma AnswerToExpected(g: Geometry, m: Message, handler: Handler)
    requires m.outcome.Success? && m.num > 0 && m.fid > 0
    ensures Answer(g, handler, Expected(g, m)) == FramesOf(g, Reply(m, handler))
  {
  }

  /** What the server writes for one call is the whole reply to the request that
      the call completes, if any. */
  lemma AnswerIs(g: Geometry, ms: Traffic, st: Partials, up: seq<Token>, handler: Handler, t: nat)
    requires Requests(g, ms) && OnceEach(g, ms, up) && st.Keys !! ms.Keys && t < |up|
    ensures Answer(g, handler, Response(g, ms, st, up, t)) ==
            if Completes(g, ms, up, t) then FramesOf(g, Reply(ms[up[t].num], handler)) else []
  {
    var m := ms[up[t].num];
    assert m.num == up[t].num && m.fid > 0;
    DeliveredOnLastArrival(g, ms, st, up, t);
    if Completes(g, ms, up, t) {
      AnswerToExpected(g, m, handler);
    }
  }

  lemma {:induction false} FramesJoined(g: Geometry, rs: Traffic, trows: seq<seq<Token>>, rows: seq<seq<Bytes>>, n: nat)
    requires WellFormed(g, rs) && n <= |trows| == |rows|
    requires forall t :: 0 <= t < |rows| ==> AllHonest(g, rs, trows[t]) && rows[t] == Frames(g, rs, trows[t])
    ensures AllHonest(g, rs, Joined(trows, n)) && Joined(rows, n) == Frames(g, rs, Joined(trows, n))
  {
    if n > 0 {
      FramesJoined(g, rs, trows, rows, n - 1);
      FramesAppend(g, rs, Joined(trows, n - 1), trows[n - 1]);
    }
  }

  /** The reply tokens of the requests that are complete. */
  ghost predicate Sent(g: Geometry, ms: Traffic, rs: Traffic, up: seq<Token>, sent: seq<Token>) {
    OnceEach(g, rs, sent) && SentSoFar(g, ms, rs, up, sent, |up|)
  }

  /** However the request frames interleave, and whichever are lost or still to
      come: the server writes every frame of the reply to every request that is
      complete, each frame once, and nothing else. */
  lemma ServerAnswersAll(
    g: Geometry, ms: Traffic, st: Partials, up: seq<Token>, handler: Handler) returns (sent: seq<Token>)
    requires Requests(g, ms) && OnceEach(g, ms, up) && st.Keys !! ms.Keys
    requires WellFormed(g, Replies(g, ms, handler))
    ensures Sent(g, ms, Replies(g, ms, handler), up, sent)
    ensures Written(g, ms, handler, st, up) == Frames(g, Replies(g, ms, handler), sent)
  {
    var rs, rows := Replies(g, ms, handler), Rows(g, ms, st, up, handler);
    var trows := TokenRows(g, ms, rs, up);
    forall t | 0 <= t < |up| ensures AllHonest(g, rs, trows[t]) && rows[t] == Frames(g, rs, trows[t]) {
      AnswerIs(g, ms, st, up, handler, t);
      WholeFrames(g, rs, up[t].num);
    }
    FramesJoined(g, rs, trows, rows, |up|);
    RepliesSentAlways(g, ms, rs, up, |up|);
    sent := ReplyTokens(g, ms, rs, up, |up|);
  }

  // ---------------------------------------------------------------------------
  // The network

  /** Different frames of a traffic differ as byte strings. */
  lemma FrameInjective(g: Geometry, ms: Traffic, t: Token, t': Token)
    requires WellFormed(g, ms) && Honest(g, ms, t) && Honest(g, ms, t')
    requires FrameOf(g, ms, t) == FrameOf(g, ms, t')
    ensures t == t'
  {
    HonestParse(g, ms, [t]);
    HonestParse(g, ms, [t']);
    assert Readings(g, ms, [t])[0] == Parse(g, Frames(g, ms, [t])[0]);
    assert Readings(g, ms, [t'])[0] == Parse(g, Frames(g, ms, [t'])[0]);
    assert Reading(g, ms, t) == Reading(g, ms, t');
  }

  lemma {:induction false} DistinctCounts<T>(s: seq<T>)
    ensures Distinct(s) <==> forall x :: multiset(s)[x] <= 1
  {
    if s != [] {
      var z := |s| - 1;
      DistinctCounts(s[..z]);
      assert s == s[..z] + [s[z]];
      if Distinct(s) {
        assert s[z] !in s[..z];
      } else if Distinct(s[..z]) {
        var i, j :| 0 <= i < j < |s| && s[i] == s[j];
        assert s[..z][i] == s[z];
        assert s[z] in multiset(s[..z]);
        assert multiset(s)[s[z]] >= 2;
      } else {
        var x :| multiset(s[..z])[x] > 1;
        assert multiset(s)[x] > 1;
      }
    }
  }

  /** The token whose frame b is. */
  ghost function TokenOf(g: Geometry, ms: Traffic, sent: seq<Token>, b: Bytes): (t: Token)
    requires WellFormed(g, ms) && AllHonest(g, ms, sent) && b in Frames(g, ms, sent)
    ensures t in sent && Honest(g, ms, t) && FrameOf(g, ms, t) == b
  {
    var j :| 0 <= j < |sent| && Frames(g, ms, sent)[j] == b;
    sent[j]
  }

  ghost function TokensOf(g: Geometry, ms: Traffic, sent: seq<Token>, arrived: seq<Bytes>): (toks: seq<Token>)
    requires WellFormed(g, ms) && AllHonest(g, ms, sent)
    requires forall b :: b in arrived ==> b in Frames(g, ms, sent)
    ensures AllHonest(g, ms, toks) && Frames(g, ms, toks) == arrived
    ensures forall t :: t in toks ==> t in sent
  {
    seq(|arrived|, i requires 0 <= i < |arrived| => TokenOf(g, ms, sent, arrived[i]))
  }

  lemma FramesDistinct(g: Geometry, ms: Traffic, toks: seq<Token>)
    requires WellFormed(g, ms) && AllHonest(g, ms, toks)
    ensures Distinct(toks) <==> Distinct(Frames(g, ms, toks))
  {
    if Distinct(toks) {
      forall i, j | 0 <= i < j < |toks| ensures Frames(g, ms, toks)[i] != Frames(g, ms, toks)[j] {
        if Frames(g, ms, toks)[i] == Frames(g, ms, toks)[j] {
          FrameInjective(g, ms, toks[i], toks[j]);
        }
      }
    } else {
      var i, j :| 0 <= i < j < |toks| && toks[i] == toks[j];
      assert Frames(g, ms, toks)[i] == Frames(g, ms, toks)[j];
    }
  }

  /** A network that loses frames but repeats none. */
  ghost predicate Lossy(arrived: seq<Bytes>, written: seq<Bytes>) {
    multiset(arrived) <= multiset(written)
  }

  lemma Retoken(g: Geometry, ms: Traffic, sent: seq<Token>, arrived: seq<Bytes>) returns (toks: seq<Token>)
    requires WellFormed(g, ms) && OnceEach(g, ms, sent) && Lossy(arrived, Frames(g, ms, sent))
    ensures OnceEach(g, ms, toks) && Frames(g, ms, toks) == arrived
  {
    var frames := Frames(g, ms, sent);
    forall b | b in arrived ensures b in frames {
      assert b in multiset(arrived) && b in multiset(frames);
    }
    toks := TokensOf(g, ms, sent, arrived);
    FramesDistinct(g, ms, sent);
    DistinctCounts(frames);
    DistinctCounts(arrived);
    FramesDistinct(g, ms, toks);
  }

  // ---------------------------------------------------------------------------
  // End to end

  /** Every one of `frames` has arrived. */
  ghost predicate AllIn(frames: seq<Bytes>, arrived: seq<Bytes>) {
    forall f :: f in frames ==> f in arrived
  }

  /** A message is complete exactly when its frames, as bytes, have all arrived. */
  lemma CompleteIsAllIn(g: Geometry, ms: Traffic, toks: seq<Token>, num: nat)
    requires WellFormed(g, ms) && AllHonest(g, ms, toks) && num in ms
    ensures Complete(g, ms, toks, num) <==> AllIn(FramesOf(g, ms[num]), Frames(g, ms, toks))
  {
    hide FramesOf, Width, Seen;
    var frames, w := FramesOf(g, ms[num]), Width(g, ms[num]);
    SeenBounded(g, ms, toks, num);
    forall s | 0 <= s < w ensures s in Seen(toks, num) <==> frames[s] in Frames(g, ms, toks) {
      SeenIsArrived(g, ms, toks, Token(num, s));
    }
    if AllIn(frames, Frames(g, ms, toks)) {
      forall s | s in All(w) ensures s in Seen(toks, num) {
        assert frames[s] in frames;
      }
    }
  }

  lemma SeenIsArrived(g: Geometry, ms: Traffic, toks: seq<Token>, t: Token)
    requires WellFormed(g, ms) && AllHonest(g, ms, toks) && Honest(g, ms, t)
    ensures t.slot in Seen(toks, t.num) <==> FrameOf(g, ms, t) in Frames(g, ms, toks)
  {
    if t.slot in Seen(toks, t.num) {
      var i :| 0 <= i < |toks| && toks[i].num == t.num && toks[i].slot == t.slot;
      assert Frames(g, ms, toks)[i] == FrameOf(g, ms, t);
    }
    if FrameOf(g, ms, t) in Frames(g, ms, toks) {
      var i :| 0 <= i < |toks| && Frames(g, ms, toks)[i] == FrameOf(g, ms, t);
      FrameInjective(g, ms, toks[i], t);
    }
  }

  lemma {:induction false} ArrivalsPrefix(evs: seq<ClientEvent>, o: nat)
    requires o <= |evs|
    ensures Arrivals(evs[..o]) <= Arrivals(evs)
  {
    if o == |evs| {
      assert evs[..o] == evs;
    } else {
      ArrivalsPrefix(evs[..|evs| - 1], o);
      assert evs[..|evs| - 1][..o] == evs[..o];
    }
  }

  /** The box of the caller that waits for `reply` since event o: filled, once, if
      the reply succeeded and was completed by a frame that came after the box
      was opened. */
  ghost predicate BoxHolds(g: Geometry, rc: Waiters, reply: Message, evs: seq<ClientEvent>, o: nat)
    requires reply.fid > 0 && o <= |evs|
  {
    var frames := FramesOf(g, reply);
    && reply.num in rc
    && rc[reply.num] == RecvChan(
         if reply.outcome.Success? && AllIn(frames, Arrivals(evs)) && !AllIn(frames, Arrivals(evs[..o]))
         then [reply.outcome.data] else [],
         [])
  }

  /** The client's half: some of the frames `sent` arrive, in any order. */
  lemma ClientGets(
    g: Geometry, rs: Traffic, sent: seq<Token>, s: ConnState, evs: seq<ClientEvent>, num: nat, o: nat)
    requires WellFormed(g, rs) && OnceEach(g, rs, sent) && s.st.Keys !! rs.Keys
    requires Ready(rs, s.rc) && s.loop == Running
    requires Lossy(Arrivals(evs), Frames(g, rs, sent))
    requires num in rs && OpenedAt(evs, num, o)
    ensures Unblocked(g, s, evs)
    ensures BoxHolds(g, After(ClientStep(g), s, evs).rc, rs[num], evs, o)
  {
    assert rs[num].num == num;
    hide Complete, WellFormed, Lossy, AllIn, Arrivals, FramesOf;
    var toks := Retoken(g, rs, sent, Arrivals(evs));
    NeverBlocks(g, rs, s, evs, toks);
    CallerBox(g, rs, s, evs, num, o, toks);
    var r := |Arrivals(evs[..o])|;
    ArrivalsPrefix(evs, o);
    assert Arrivals(evs[..o]) == Frames(g, rs, toks[..r]);
    CompleteIsAllIn(g, rs, toks, num);
    CompleteIsAllIn(g, rs, toks[..r], num);
  }

  lemma ReplyIn(g: Geometry, ms: Traffic, handler: Handler, num: nat)
    requires Requests(g, ms) && num in ms
    ensures num in Replies(g, ms, handler) && Replies(g, ms, handler)[num] == Reply(ms[num], handler)
    ensures Reply(ms[num], handler).fid > 0
  {
  }

  /** The RPC law. Requests with distinct ids reach a server, some of their frames
      perhaps lost or still under way, in any order and interleaving; some of the
      frames it writes reach the client, none twice, in any order, mixed with
      callers opening, reading and closing their boxes. No send ever blocks. Look at
      any moment of such a run at a caller that has opened box `num` and not touched
      it since. Its box holds the handler's output for its own request, once, and
      nothing else, exactly when the handler succeeded and the reply was completed
      after the box was opened. Otherwise it is empty: an error reply is dropped,
      and so is a reply that was complete before the caller began to wait. */
  lemma CallerGetsItsReply(
    g: Geometry, ms: Traffic, handler: Handler, sst: Partials, up: seq<Token>,
    s: ConnState, evs: seq<ClientEvent>, num: nat, o: nat)
    requires Requests(g, ms) && OnceEach(g, ms, up) && sst.Keys !! ms.Keys
    requires WellFormed(g, Replies(g, ms, handler)) && s.st.Keys !! ms.Keys
    requires Ready(ms, s.rc) && s.loop == Running
    requires Lossy(Arrivals(evs), Written(g, ms, handler, sst, up))
    requires num in ms && OpenedAt(evs, num, o)
    ensures Unblocked(g, s, evs)
    ensures BoxHolds(g, After(ClientStep(g), s, evs).rc, Reply(ms[num], handler), evs, o)
  {
    var sent := ServerAnswersAll(g, ms, sst, up, handler);
    ReplyIn(g, ms, handler, num);
    ClientGets(g, Replies(g, ms, handler), sent, s, evs, num, o);
  }

  // ---------------------------------------------------------------------------
  // Repeated frames

  /** Every frame is one that the server would write in reply to some request. */
  ghost predicate FromReplies(g: Geometry, rs: Traffic, frames: seq<Bytes>)
    requires WellFormed(g, rs)
  {
    forall f :: f in frames ==> exists t: Token :: Honest(g, rs, t) && FrameOf(g, rs, t) == f
  }

  lemma RowFromReplies(g: Geometry, ms: Traffic, st: Partials, up: seq<Token>, handler: Handler, t: nat)
    requires Requests(g, ms) && AllHonest(g, ms, up) && st.Keys !! ms.Keys && t < |up|
    requires WellFormed(g, Replies(g, ms, handler))
    ensures FromReplies(g, Replies(g, ms, handler), Rows(g, ms, st, up, handler)[t])
  {
    hide Parse, Feed;
    var m, rs := ms[up[t].num], Replies(g, ms, handler);
    assert m.num == up[t].num && m.fid > 0;
    Safety(g, ms, st, up, t);
    if Response(g, ms, st, up, t) != NOTHING {
      AnswerToExpected(g, m, handler);
      var row := FramesOf(g, rs[m.num]);
      forall f | f in row ensures exists t: Token :: Honest(g, rs, t) && FrameOf(g, rs, t) == f {
        var i :| 0 <= i < |row| && row[i] == f;
        assert FrameOf(g, rs, Token(m.num, i)) == f;
      }
    }
  }

  lemma {:induction false} JoinedFromReplies(g: Geometry, rs: Traffic, rows: seq<seq<Bytes>>, n: nat)
    requires WellFormed(g, rs) && n <= |rows|
    requires forall t :: 0 <= t < |rows| ==> FromReplies(g, rs, rows[t])
    ensures FromReplies(g, rs, Joined(rows, n))
  {
    if n > 0 {
      JoinedFromReplies(g, rs, rows, n - 1);
    }
  }

  lemma ChooseTokens(g: Geometry, rs: Traffic, frames: seq<Bytes>) returns (toks: seq<Token>)
    requires WellFormed(g, rs) && FromReplies(g, rs, frames)
    ensures AllHonest(g, rs, toks) && Frames(g, rs, toks) == frames
  {
    hide FramesOf, WellFormed, Width;
    toks := [];
    for i := 0 to |frames|
      invariant AllHonest(g, rs, toks) && |toks| == i
      invariant forall k :: 0 <= k < i ==> FrameOf(g, rs, toks[k]) == frames[k]
    {
      assert frames[i] in frames;
      var t: Token :| Honest(g, rs, t) && FrameOf(g, rs, t) == frames[i];
      toks := toks + [t];
    }
  }

  /** The safety half of the RPC law holds on any network. Frames may be lost,
      repeated and reordered in both directions, so that the server may run a
      request several times and the client's read loop may block: boxes that hold
      nothing else at first never hold anything but copies of the handler's output
      for their own requests. */
  lemma NothingButItsReply(
    g: Geometry, ms: Traffic, handler: Handler, sst: Partials, up: seq<Token>, s: ConnState, evs: seq<ClientEvent>)
    requires Requests(g, ms) && AllHonest(g, ms, up) && sst.Keys !! ms.Keys
    requires WellFormed(g, Replies(g, ms, handler)) && s.st.Keys !! ms.Keys
    requires AllIn(Arrivals(evs), Written(g, ms, handler, sst, up))
    requires OwnState(Replies(g, ms, handler), s)
    ensures OwnState(Replies(g, ms, handler), After(ClientStep(g), s, evs))
  {
    var rs, rows := Replies(g, ms, handler), Rows(g, ms, sst, up, handler);
    forall t | 0 <= t < |up| ensures FromReplies(g, rs, rows[t]) {
      RowFromReplies(g, ms, sst, up, handler, t);
    }
    JoinedFromReplies(g, rs, rows, |up|);
    var toks := ChooseTokens(g, rs, Arrivals(evs));
    BoxesHoldOnlyOwn(g, rs, s, evs, toks);
  }

  /** How often the server runs a request whose frames repeat: at least k times
      exactly if they arrive in k full sets. Each run writes the whole reply, and
      nothing else is written. */
  lemma ServerRunsAtLeast(
    g: Geometry, ms: Traffic, st: Partials, up: seq<Token>, handler: Handler, num: nat, k: nat)
    requires Requests(g, ms) && AllHonest(g, ms, up) && st.Keys !! ms.Keys && num in ms
    ensures k <= Times(Responses(g, ms, st, up), num) <==> Covers(Width(g, ms[num]), up, num, |up|, k)
    ensures forall t :: 0 <= t < |up| ==>
              Rows(g, ms, st, up, handler)[t] ==
              if Delivers(Response(g, ms, st, up, t), up[t].num) then FramesOf(g, Reply(ms[up[t].num], handler)) else []
  {
    DeliveredAtLeast(g, ms, st, up, num, k);
    forall t | 0 <= t < |up|
      ensures Rows(g, ms, st, up, handler)[t] ==
              if Delivers(Response(g, ms, st, up, t), up[t].num) then FramesOf(g, Reply(ms[up[t].num], handler)) else []
    {
      RowIs(g, ms, st, up, handler, t);
    }
  }

  lemma RowIs(g: Geometry, ms: Traffic, st: Partials, up: seq<Token>, handler: Handler, t: nat)
    requires Requests(g, ms) && AllHonest(g, ms, up) && st.Keys !! ms.Keys && t < |up|
    ensures Answer(g, handler, Response(g, ms, st, up, t)) ==
            if Delivers(Response(g, ms, st, up, t), up[t].num) then FramesOf(g, Reply(ms[up[t].num], handler)) else []
  {
    var m := ms[up[t].num];
    assert m.num == up[t].num && m.num > 0 && m.fid > 0;
    Safety(g, ms, st, up, t);
    hide Response, WellFormed;
    if Delivers(Response(g, ms, st, up, t), m.num) {
      AnswerToExpected(g, m, handler);
    }
  }

  // ---------------------------------------------------------------------------
  // What `WaitRsp` returns

  /** A call that is not cancelled returns the handler's output for its own
      request, and only once its handler succeeded and its whole reply is there. */
  lemma CallReturns(
    g: Geometry, ms: Traffic, handler: Handler, sst: Partials, up: seq<Token>,
    s: ConnState, evs: seq<ClientEvent>, num: nat, o: nat, w: Waited)
    requires Requests(g, ms) && OnceEach(g, ms, up) && sst.Keys !! ms.Keys
    requires WellFormed(g, Replies(g, ms, handler)) && s.st.Keys !! ms.Keys
    requires Ready(ms, s.rc) && s.loop == Running
    requires Lossy(Arrivals(evs), Written(g, ms, handler, sst, up))
    requires num in ms && OpenedAt(evs, num, o) && w != GaveUp
    requires num in After(ClientStep(g), s, evs).rc && MayReturn(After(ClientStep(g), s, evs).rc[num], w)
    ensures var reply := Reply(ms[num], handler);
            && reply.outcome.Success? && w == GotReply(reply.outcome.data)
            && AllIn(FramesOf(g, reply), Arrivals(evs)) && !AllIn(FramesOf(g, reply), Arrivals(evs[..o]))
  {
    CallerGetsItsReply(g, ms, handler, sst, up, s, evs, num, o);
    assert ms[num].num == num;
  }
}
