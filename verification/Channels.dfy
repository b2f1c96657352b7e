/** The client side with the channels the source makes: each holds one value, and a
    send to a full one blocks the read loop of the connection. */
module Channels {
  import opened Common
  import opened Wire
  import opened Reassembler
  import opened Runs
  import opened Collector
  import opened Delivery
  import opened Client

  ghost function ClientStep(g: Geometry): (ConnState, ClientEvent) -> (ConnState, Resp) {
    (s: ConnState, ev: ClientEvent) =>
      match ev
      case Arrive(frame) => Receive(s, Parse(g, frame))
      case Open(num) => (Opened(s, num), NOTHING)
      case Take(num, err) => (Taken(s, num, err), NOTHING)
      case Close(num) => (Closed(s, num), NOTHING)
  }

  // ---------------------------------------------------------------------------
  // Until a send blocks

  ghost function Free(s: ConnState): (Partials, Waiters) {
    (s.st, s.rc)
  }

  /** With room without end, no send would find its box full. */
  ghost predicate Roomy(g: Geometry, s: (Partials, Waiters), evs: seq<ClientEvent>) {
    forall t :: 0 <= t < |evs| && evs[t].Arrive? ==>
      Fits(After(FreeStep(g), s, evs[..t]).1, OutAt(FreeStep(g), s, evs, t))
  }

  ghost predicate Unblocked(g: Geometry, s: ConnState, evs: seq<ClientEvent>) {
    forall t :: 0 <= t < |evs| ==> OutAt(ClientStep(g), s, evs, t) != Blocked
  }

  lemma RoomySnoc(g: Geometry, s: (Partials, Waiters), evs: seq<ClientEvent>, ev: ClientEvent)
    ensures var now := After(FreeStep(g), s, evs);
            Roomy(g, s, evs + [ev]) <==>
              Roomy(g, s, evs) && (ev.Arrive? ==> Fits(now.1, FreeStep(g)(now, ev).1))
  {
    hide Fits, FreeStep;
    var all := evs + [ev];
    RunSnoc(FreeStep(g), s, evs, ev);
    assert forall t :: 0 <= t <= |evs| ==> all[..t] == evs[..t];
    assert evs[..|evs|] == evs && all[|evs|] == ev;
    assert forall t :: 0 <= t < |evs| ==> all[t] == evs[t];
  }

  lemma UnblockedSnoc(g: Geometry, s: ConnState, evs: seq<ClientEvent>, ev: ClientEvent)
    ensures Unblocked(g, s, evs + [ev]) <==>
              Unblocked(g, s, evs) && ClientStep(g)(After(ClientStep(g), s, evs), ev).1 != Blocked
  {
    hide ClientStep;
    RunSnoc(ClientStep(g), s, evs, ev);
  }

  /** One event, as long as the loop is ready. */
  lemma AgreesOnce(g: Geometry, s: ConnState, ev: ClientEvent)
    requires s.loop == Running
    ensures var (next, r) := ClientStep(g)(s, ev);
            var (free, r') := FreeStep(g)(Free(s), ev);
            if ev.Arrive? && !Fits(s.rc, r') then r == Blocked && next.loop == Sending(r')
            else r == r' != Blocked && next == ConnState(free.0, free.1, Running)
  {
  }

  /** The real boxes are those with room without end, until one of these would hold
      a second value; that is when, and the only way how, the loop blocks. */
  lemma {:induction false} AgreesUntilBlocked(g: Geometry, s: ConnState, evs: seq<ClientEvent>)
    requires s.loop == Running
    ensures Unblocked(g, s, evs) <==> Roomy(g, Free(s), evs)
    ensures Roomy(g, Free(s), evs) ==>
              var free := After(FreeStep(g), Free(s), evs);
              After(ClientStep(g), s, evs) == ConnState(free.0, free.1, Running)
  {
    if evs != [] {
      hide ClientStep, FreeStep, Fits, Roomy, Unblocked;
      var z := |evs| - 1;
      var before, ev := evs[..z], evs[z];
      PrefixSnoc(evs, z);
      assert evs == before + [ev];
      AgreesUntilBlocked(g, s, before);
      RoomySnoc(g, Free(s), before, ev);
      UnblockedSnoc(g, s, before, ev);
      RunSnoc(ClientStep(g), s, before, ev);
      RunSnoc(FreeStep(g), Free(s), before, ev);
      if Roomy(g, Free(s), before) {
        AgreesOnce(g, After(ClientStep(g), s, before), ev);
      }
    }
  }

  // ---------------------------------------------------------------------------
  // Without repeated frames

  /** The boxes of the messages to come are empty. */
  ghost predicate Ready(ms: Traffic, rc: Waiters) {
    forall num :: num in rc && num in ms ==> rc[num].body == []
  }

  /** Only complete messages have something in their box. */
  ghost predicate Earned(g: Geometry, ms: Traffic, toks: seq<Token>, rc: Waiters) {
    forall num :: num in rc && num in ms && rc[num].body != [] ==> Complete(g, ms, toks, num)
  }

  /** The next frame completes its message at most for the first time, so its box
      has room. */
  lemma EarnedArrival(g: Geometry, ms: Traffic, toks: seq<Token>, rc: Waiters, resp: Resp)
    requires WellFormed(g, ms) && toks != [] && OnceEach(g, ms, toks)
    requires Earned(g, ms, toks[..|toks| - 1], rc)
    requires var last := toks[|toks| - 1];
             resp == if Complete(g, ms, toks, last.num) then Expected(g, ms[last.num]) else NOTHING
    ensures Fits(rc, resp) && Earned(g, ms, toks, Route(rc, resp))
  {
    var n := |toks| - 1;
    var last := toks[n].num;
    assert ms[last].num == last;
    hide Complete, Distinct, AllHonest, WellFormed;
    forall k | k in ms
      ensures Complete(g, ms, toks[..n], k) ==> Complete(g, ms, toks, k) && k != last
    {
      CompleteStep(g, ms, toks, k, n);
    }
  }

  /** Nobody has to read anything for the loop to go on. */
  lemma {:induction false} RepeatFreeIsRoomy(
    g: Geometry, ms: Traffic, s: (Partials, Waiters), evs: seq<ClientEvent>, toks: seq<Token>)
    requires HonestRun(g, ms, s.0, evs, toks) && Ready(ms, s.1)
    ensures Roomy(g, s, evs) && Earned(g, ms, toks, After(FreeStep(g), s, evs).1)
  {
    if evs != [] {
      var z := |evs| - 1;
      var before, ev := evs[..z], evs[z];
      PrefixSnoc(evs, z);
      assert evs == before + [ev];
      HonestSnoc(g, ms, s.0, before, ev, toks);
      hide Roomy, Fits, Earned, HonestRun;
      if ev.Arrive? {
        RepeatFreeIsRoomy(g, ms, s, before, toks[..|toks| - 1]);
        RoomyArrival(g, ms, s, before, ev.frame, toks);
      } else {
        RepeatFreeIsRoomy(g, ms, s, before, toks);
        RoomyQuiet(g, ms, s, before, ev, toks);
      }
    }
  }

  lemma RoomyArrival(
    g: Geometry, ms: Traffic, s: (Partials, Waiters), evs: seq<ClientEvent>, f: Bytes, toks: seq<Token>)
    requires toks != [] && HonestRun(g, ms, s.0, evs, toks[..|toks| - 1]) && AllHonest(g, ms, toks) && Distinct(toks)
    requires f == FrameOf(g, ms, toks[|toks| - 1])
    requires Roomy(g, s, evs) && Earned(g, ms, toks[..|toks| - 1], After(FreeStep(g), s, evs).1)
    ensures Roomy(g, s, evs + [Arrive(f)]) && Earned(g, ms, toks, After(FreeStep(g), s, evs + [Arrive(f)]).1)
  {
    ReceivedLast(g, ms, s, evs, toks);
    RoomySnoc(g, s, evs, Arrive(f));
    AfterSnoc(g, s, evs, Arrive(f));
    hide Roomy, Fits, Complete, Earned, Parse, Feed, FrameOf;
    var now := After(FreeStep(g), s, evs);
    EarnedArrival(g, ms, toks, now.1, Feed(now.0, Parse(g, f)).1);
  }

  lemma RoomyQuiet(
    g: Geometry, ms: Traffic, s: (Partials, Waiters), evs: seq<ClientEvent>, ev: ClientEvent, toks: seq<Token>)
    requires !ev.Arrive? && Roomy(g, s, evs) && Earned(g, ms, toks, After(FreeStep(g), s, evs).1)
    ensures Roomy(g, s, evs + [ev]) && Earned(g, ms, toks, After(FreeStep(g), s, evs + [ev]).1)
  {
    RoomySnoc(g, s, evs, ev);
    AfterSnoc(g, s, evs, ev);
    hide Roomy, Complete;
  }

  /** Without repeated frames no send ever meets a full box, whether callers read
      their boxes or not, and the read loop never blocks. */
  lemma NeverBlocks(g: Geometry, ms: Traffic, s: ConnState, evs: seq<ClientEvent>, toks: seq<Token>)
    requires HonestRun(g, ms, s.st, evs, toks) && Ready(ms, s.rc) && s.loop == Running
    ensures Unblocked(g, s, evs)
    ensures var free := After(FreeStep(g), Free(s), evs);
            After(ClientStep(g), s, evs) == ConnState(free.0, free.1, Running)
  {
    RepeatFreeIsRoomy(g, ms, Free(s), evs, toks);
    AgreesUntilBlocked(g, s, evs);
  }

  /** The box law: what `WaiterGets` says of boxes without end holds of the real
      ones. */
  lemma CallerBox(g: Geometry, ms: Traffic, s: ConnState, evs: seq<ClientEvent>, num: nat, o: nat, toks: seq<Token>)
    requires HonestRun(g, ms, s.st, evs, toks) && Ready(ms, s.rc) && s.loop == Running
    requires num in ms && OpenedAt(evs, num, o)
    ensures |Arrivals(evs[..o])| <= |toks|
    ensures var now := After(ClientStep(g), s, evs);
            now.loop == Running && num in now.rc && now.rc[num] == Inbox(g, ms, toks, num, |Arrivals(evs[..o])|)
  {
    NeverBlocks(g, ms, s, evs, toks);
    WaiterGets(g, ms, Free(s), evs, num, o, toks);
  }

  /** A reply that came before its caller opened a box is lost, whatever it says. */
  lemma EarlyReplyIsLost(g: Geometry, ms: Traffic, s: ConnState, num: nat)
    requires WellFormed(g, ms) && s.st.Keys !! ms.Keys && Ready(ms, s.rc) && s.loop == Running && num in ms
    ensures var toks := Whole(num, Width(g, ms[num]));
            && AllHonest(g, ms, toks) && Complete(g, ms, toks, num)
            && After(ClientStep(g), s, ArriveAll(Frames(g, ms, toks)) + [Open(num)]).rc[num] == EMPTY_BOX
  {
    hide Complete, FrameOf, Parse, Receive, After, WellFormed;
    WholeIsComplete(g, ms, num);
    RunSnoc(ClientStep(g), s, ArriveAll(Frames(g, ms, Whole(num, Width(g, ms[num])))), Open(num));
  }

  ghost function ArriveAll(frames: seq<Bytes>): (evs: seq<ClientEvent>)
    ensures |evs| == |frames|
  {
    seq(|frames|, i requires 0 <= i < |frames| => Arrive(frames[i]))
  }

  // ---------------------------------------------------------------------------
  // Repeated frames

  /** Boxes hold copies of their own reply only. */
  ghost predicate OnlyOwn(ms: Traffic, rc: Waiters) {
    forall num :: num in rc && num in ms ==>
      && rc[num].err == []
      && forall d :: d in rc[num].body ==> ms[num].outcome == Success(d)
  }

  ghost predicate OwnResp(ms: Traffic, r: Resp) {
    r.Resp? && (r.num in ms ==> r.err == None && ms[r.num].outcome == Success(r.data))
  }

  /** So does a send that is under way. */
  ghost predicate OwnState(ms: Traffic, s: ConnState) {
    OnlyOwn(ms, s.rc) && (s.loop.Sending? ==> OwnResp(ms, s.loop.r))
  }

  lemma RouteOnlyOwn(ms: Traffic, rc: Waiters, r: Resp)
    requires OnlyOwn(ms, rc) && OwnResp(ms, r)
    ensures OnlyOwn(ms, Route(rc, r))
  {
  }

  lemma PoppedOnlyOwn(ms: Traffic, rc: Waiters, num: nat, err: bool)
    requires OnlyOwn(ms, rc)
    ensures OnlyOwn(ms, Popped(rc, num, err))
  {
  }

  /** What callers do keeps the boxes honest. */
  lemma OwnQuiet(g: Geometry, ms: Traffic, s: ConnState, ev: ClientEvent)
    requires OwnState(ms, s) && !ev.Arrive?
    ensures OwnState(ms, ClientStep(g)(s, ev).0) && ClientStep(g)(s, ev).0.st == s.st
  {
    if ev.Take? {
      PoppedOnlyOwn(ms, s.rc, ev.num, ev.err);
      if SendsTo(s.loop, ev.num) {
        RouteOnlyOwn(ms, Popped(s.rc, ev.num, ev.err), s.loop.r);
      }
    }
  }

  lemma OwnReceive(ms: Traffic, s: ConnState, p: Parsed)
    requires OwnState(ms, s) && OwnResp(ms, Feed(s.st, p).1)
    ensures OwnState(ms, Receive(s, p).0)
    ensures Receive(s, p).0.st == if s.loop == Running then Feed(s.st, p).0 else s.st
  {
    RouteOnlyOwn(ms, s.rc, Feed(s.st, p).1);
  }

  lemma OneMoreFrame(g: Geometry, ms: Traffic, read: seq<Token>, t: Token)
    requires WellFormed(g, ms) && AllHonest(g, ms, read) && Honest(g, ms, t)
    ensures AllHonest(g, ms, read + [t])
    ensures ParseAll(g, Frames(g, ms, read + [t])) == ParseAll(g, Frames(g, ms, read)) + [Parse(g, FrameOf(g, ms, t))]
  {
  }

  lemma ExpectedIsOwn(g: Geometry, ms: Traffic, num: nat, r: Resp)
    requires WellFormed(g, ms) && num in ms && r in {NOTHING, Expected(g, ms[num])}
    ensures OwnResp(ms, r)
  {
    assert ms[num].num == num && 0 !in ms;
  }

  /** The table after one more honest frame, and what that frame returns. */
  lemma TableNext(g: Geometry, ms: Traffic, st: Partials, read: seq<Token>, t: Token)
    requires WellFormed(g, ms) && AllHonest(g, ms, read) && Honest(g, ms, t) && st.Keys !! ms.Keys
    ensures AllHonest(g, ms, read + [t])
    ensures var (st', r) := Feed(Table(g, ms, st, read), Parse(g, FrameOf(g, ms, t)));
            st' == Table(g, ms, st, read + [t]) && OwnResp(ms, r)
  {
    OneMoreFrame(g, ms, read, t);
    hide Parse, Feed, FrameOf, WellFormed, OwnResp, Expected, AllHonest, After;
    assert (read + [t])[|read|] == t;
    Safety(g, ms, st, read + [t], |read|);
    RunSnoc(Feed, st, ParseAll(g, Frames(g, ms, read)), Parse(g, FrameOf(g, ms, t)));
    ExpectedIsOwn(g, ms, t.num, Response(g, ms, st, read + [t], |read|));
  }

  /** A frame that arrives while the loop is blocked is not read. The others are
      all the table ever sees. */
  lemma {:induction false} FramesRead(
    g: Geometry, ms: Traffic, s: ConnState, evs: seq<ClientEvent>, toks: seq<Token>) returns (read: seq<Token>)
    requires WellFormed(g, ms) && AllHonest(g, ms, toks) && s.st.Keys !! ms.Keys
    requires Arrivals(evs) == Frames(g, ms, toks)
    ensures AllHonest(g, ms, read) && After(ClientStep(g), s, evs).st == Table(g, ms, s.st, read)
  {
    if evs == [] {
      read := [];
    } else {
      var z := |evs| - 1;
      var before, ev := evs[..z], evs[z];
      PrefixSnoc(evs, z);
      assert evs == before + [ev];
      ArrivalsSnoc(before, ev);
      RunSnoc(ClientStep(g), s, before, ev);
      hide Parse, Feed, FrameOf, WellFormed, Fits, Route;
      if ev.Arrive? {
        var n := |toks| - 1;
        assert Arrivals(before) == Frames(g, ms, toks)[..n] == Frames(g, ms, toks[..n]);
        assert Frames(g, ms, toks)[n] == ev.frame;
        read := FramesRead(g, ms, s, before, toks[..n]);
        TableNext(g, ms, s.st, read, toks[n]);
        if After(ClientStep(g), s, before).loop == Running {
          read := read + [toks[n]];
        }
      } else {
        read := FramesRead(g, ms, s, before, toks);
      }
    }
  }

  /** What the frame that just arrived returns, if it is read. */
  lemma FrameReturns(
    g: Geometry, ms: Traffic, s: ConnState, evs: seq<ClientEvent>, f: Bytes, toks: seq<Token>)
    requires WellFormed(g, ms) && AllHonest(g, ms, toks) && s.st.Keys !! ms.Keys
    requires Arrivals(evs + [Arrive(f)]) == Frames(g, ms, toks)
    ensures OwnResp(ms, Feed(After(ClientStep(g), s, evs).st, Parse(g, f)).1)
  {
    ArrivalsSnoc(evs, Arrive(f));
    var n := |toks| - 1;
    assert Arrivals(evs) == Frames(g, ms, toks)[..n] == Frames(g, ms, toks[..n]);
    assert Frames(g, ms, toks)[n] == f;
    hide Parse, Feed, FrameOf, WellFormed, OwnResp;
    var read := FramesRead(g, ms, s, evs, toks[..n]);
    TableNext(g, ms, s.st, read, toks[n]);
  }

  /** Under any loss, repetition and reordering of the frames, whoever opens, reads
      and closes boxes meanwhile, and whether the loop blocks or not: no call
      panics, and a box never holds anything but copies of its own reply, and no
      error. */
  lemma {:induction false} BoxesHoldOnlyOwn(
    g: Geometry, ms: Traffic, s: ConnState, evs: seq<ClientEvent>, toks: seq<Token>)
    requires WellFormed(g, ms) && AllHonest(g, ms, toks) && s.st.Keys !! ms.Keys && OwnState(ms, s)
    requires Arrivals(evs) == Frames(g, ms, toks)
    ensures OwnState(ms, After(ClientStep(g), s, evs))
  {
    if evs != [] {
      var z := |evs| - 1;
      var before, ev := evs[..z], evs[z];
      PrefixSnoc(evs, z);
      assert evs == before + [ev];
      ArrivalsSnoc(before, ev);
      RunSnoc(ClientStep(g), s, before, ev);
      hide Parse, Feed, FrameOf, OwnState, WellFormed, OwnResp;
      var now := After(ClientStep(g), s, before);
      if ev.Arrive? {
        var n := |toks| - 1;
        assert Arrivals(before) == Frames(g, ms, toks)[..n] == Frames(g, ms, toks[..n]);
        BoxesHoldOnlyOwn(g, ms, s, before, toks[..n]);
        FrameReturns(g, ms, s, before, ev.frame, toks);
        OwnReceive(ms, now, Parse(g, ev.frame));
      } else {
        BoxesHoldOnlyOwn(g, ms, s, before, toks);
        OwnQuiet(g, ms, now, ev);
      }
    }
  }

  /** No honest frame panics, in whatever state of its connection. */
  lemma {:induction false} NeverPanics(
    g: Geometry, ms: Traffic, s: ConnState, evs: seq<ClientEvent>, toks: seq<Token>)
    requires WellFormed(g, ms) && AllHonest(g, ms, toks) && s.st.Keys !! ms.Keys
    requires Arrivals(evs) == Frames(g, ms, toks)
    ensures forall t :: 0 <= t < |evs| ==> OutAt(ClientStep(g), s, evs, t) != Panic
  {
    if evs != [] {
      var z := |evs| - 1;
      var before, ev := evs[..z], evs[z];
      PrefixSnoc(evs, z);
      assert evs == before + [ev];
      ArrivalsSnoc(before, ev);
      RunSnoc(ClientStep(g), s, before, ev);
      hide Parse, Feed, FrameOf, WellFormed, Fits;
      if ev.Arrive? {
        var n := |toks| - 1;
        assert Arrivals(before) == Frames(g, ms, toks)[..n] == Frames(g, ms, toks[..n]);
        NeverPanics(g, ms, s, before, toks[..n]);
        FrameReturns(g, ms, s, before, ev.frame, toks);
      } else {
        NeverPanics(g, ms, s, before, toks);
      }
    }
  }

  // ---------------------------------------------------------------------------
  // Stuck

  /** Once a send blocks on a box that is gone, the loop never reads again: no box
      of the connection is filled any more, whoever opens it. */
  lemma {:induction false} StuckServesNobody(g: Geometry, s: ConnState, evs: seq<ClientEvent>)
    requires s.loop == Stuck
    ensures var end := After(ClientStep(g), s, evs);
            && end.loop == Stuck && end.st == s.st
            && forall num :: num in end.rc ==>
                 end.rc[num].body == [] || (num in s.rc && |end.rc[num].body| <= |s.rc[num].body|)
  {
    if evs != [] {
      var z := |evs| - 1;
      PrefixSnoc(evs, z);
      RunSnoc(ClientStep(g), s, evs[..z], evs[z]);
      StuckServesNobody(g, s, evs[..z]);
    }
  }

  lemma OneFrame(g: Geometry, ms: Traffic, st: Partials, num: nat)
    requires WellFormed(g, ms) && num in ms && Width(g, ms[num]) == 1 && ms[num].outcome.Success? && num !in st
    ensures Feed(st, Parse(g, FrameOf(g, ms, Token(num, 0)))) == (st, Expected(g, ms[num]))
  {
    HonestParse(g, ms, [Token(num, 0)]);
    assert ParseAll(g, Frames(g, ms, [Token(num, 0)]))[0] == Readings(g, ms, [Token(num, 0)])[0];
    PiecesOfSuccess(g, ms[num]);
  }

  /** One repeated datagram is enough. Two callers wait for replies of one frame
      each; the first reply arrives twice before its caller reads it, and that
      caller gives up. The second reply arrives and is never read. */
  lemma RepeatStarvesOthers(g: Geometry, ms: Traffic, s: ConnState, a: nat, b: nat)
    requires WellFormed(g, ms) && a in ms && b in ms && a != b && s.st.Keys !! ms.Keys && s.loop == Running
    requires Width(g, ms[a]) == 1 && ms[a].outcome.Success? && Width(g, ms[b]) == 1 && ms[b].outcome.Success?
    requires a in s.rc && s.rc[a] == EMPTY_BOX && b in s.rc && s.rc[b] == EMPTY_BOX
    ensures var f, f' := FrameOf(g, ms, Token(a, 0)), FrameOf(g, ms, Token(b, 0));
            var end := After(ClientStep(g), s, [Arrive(f), Arrive(f)] + [Close(a)] + [Arrive(f')]);
            && !Unblocked(g, s, [Arrive(f), Arrive(f)])
            && end.loop == Stuck && b in end.rc && end.rc[b] == EMPTY_BOX
  {
    var f, f' := FrameOf(g, ms, Token(a, 0)), FrameOf(g, ms, Token(b, 0));
    var r := Expected(g, ms[a]);
    assert a in ms.Keys && a !in s.st && ms[a].num == a > 0;
    OneFrame(g, ms, s.st, a);
    var twice := [Arrive(f), Arrive(f)];
    RepeatBlocks(g, s, f, r);
    assert !Unblocked(g, s, twice);
    hide Parse, FrameOf, Feed, WellFormed, Width, Receive, Closed, Unblocked, OutAt;
    LeftStuck(After(ClientStep(g), s, twice), a, Parse(g, f'));
    RunSnoc(ClientStep(g), s, twice, Close(a));
    RunSnoc(ClientStep(g), s, twice + [Close(a)], Arrive(f'));
    RouteOther(s.rc, r, b);
  }

  /** The caller goes, and the loop stays. */
  lemma LeftStuck(s: ConnState, num: nat, p: Parsed)
    requires SendsTo(s.loop, num)
    ensures Receive(Closed(s, num), p).0 == ConnState(s.st, s.rc - {num}, Stuck)
  {
  }

  lemma ReceiveTwice(s: ConnState, p: Parsed, r: Resp)
    requires s.loop == Running && Feed(s.st, p) == (s.st, r)
    requires r.Resp? && r.num > 0 && r.err == None && r.num in s.rc && s.rc[r.num] == EMPTY_BOX
    ensures Receive(s, p).0 == ConnState(s.st, Route(s.rc, r), Running)
    ensures Receive(Receive(s, p).0, p) == (ConnState(s.st, Route(s.rc, r), Sending(r)), Blocked)
  {
  }

  /** The same reply twice to an empty box. */
  lemma RepeatBlocks(g: Geometry, s: ConnState, f: Bytes, r: Resp)
    requires s.loop == Running && Feed(s.st, Parse(g, f)) == (s.st, r)
    requires r.Resp? && r.num > 0 && r.err == None && r.num in s.rc && s.rc[r.num] == EMPTY_BOX
    ensures After(ClientStep(g), s, [Arrive(f), Arrive(f)]) == ConnState(s.st, Route(s.rc, r), Sending(r))
    ensures OutAt(ClientStep(g), s, [Arrive(f), Arrive(f)], 1) == Blocked
  {
    ReceiveTwice(s, Parse(g, f), r);
    RunTwice(ClientStep(g), s, Arrive(f), Arrive(f));
    hide Parse, Feed, Receive, Route, After, OutAt;
  }

  // ---------------------------------------------------------------------------
  // `WaitRsp`

  /** How a wait ends: the context is done, or something is in the box. */
  datatype Waited = GaveUp | GotReply(data: Bytes) | GotError(error: Error)

  ghost predicate MayReturn(c: RecvChan, w: Waited) {
    match w
    case GaveUp => true
    case GotReply(data) => c.body != [] && data == c.body[0]
    case GotError(error) => c.err != [] && error == c.err[0]
  }

  /** The connection when a wait is over: a value was received, or none, and the
      box is gone. */
  ghost function WaitOver(s: ConnState, num: nat, w: Waited): ConnState {
    Closed(if w == GaveUp then s else Taken(s, num, w.GotError?), num)
  }

  /** The beginning of `WaitRsp`. */
  method BeginWait(ghost g: Geometry, node: NodeConn, num: nat)
    requires node.Valid()
    modifies node`rc, node`waiting, node`sender, node`loop
    ensures node.Valid() && node.View() == ClientStep(g)(old(node.View()), Open(num)).0
  {
    node.NewChan(num);
  }

  /** The `select` of `WaitRsp`, once one of its cases is ready. */
  method Select(node: NodeConn, num: nat, done: bool) returns (w: Waited)
    requires node.Valid() && num in node.rc
    requires done || node.rc[num].body != [] || node.rc[num].err != []
    ensures num in node.waiting && MayReturn(node.waiting[num], w) && (w == GaveUp ==> done)
    ensures (w.GotReply? ==> node.rc[num].body != []) && (w.GotError? ==> node.rc[num].err != [])
  {
    var c := node.rc[num];
    var any: bool := *;
    node.BoxIntact(num);
    if |c.body| > 0 && (any || (|c.err| == 0 && !done)) {
      w := GotReply(if c.body[0].Some? then c.body[0].value[..] else []);
    } else if |c.err| > 0 && (any || !done) {
      w := GotError(c.err[0]);
    } else {
      w := GaveUp;
    }
  }

  /** The end of `WaitRsp`: what was selected is received, and the box goes away. */
  method EndWait(node: NodeConn, num: nat, done: bool) returns (w: Waited)
    requires node.Valid() && num in node.rc
    requires done || node.rc[num].body != [] || node.rc[num].err != []
    modifies node`rc, node`waiting, node`sender, node`loop
    ensures num in old(node.waiting) && MayReturn(old(node.waiting[num]), w) && (w == GaveUp ==> done)
    ensures node.Valid() && node.View() == WaitOver(old(node.View()), num, w)
  {
    w := Select(node, num, done);
    hide MayReturn, Taken, Closed, NodeConn.Tabled, NodeConn.Boxed, NodeConn.Stored;
    node.Leave(num, if w == GaveUp then None else Some(w.GotError?));
  }
}
