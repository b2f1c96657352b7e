/** Repeated frames and channels that hold one value: how many copies of a reply
    are sent to a box, and exactly when a send meets a full one. */
module Copies {
  import opened Wire
  import opened Reassembler
  import opened Runs
  import opened Collector
  import opened Delivery
  import opened Repetition
  import opened Client
  import opened Channels
  import opened Receivers
  import opened StreamDelivery

  /** A copy of reply `num` for each of the frames from the r-th on that delivers it. */
  ghost function CopiesOf(g: Geometry, ms: Traffic, st: Partials, toks: seq<Token>, num: nat, r: nat): seq<Bytes>
    requires WellFormed(g, ms) && AllHonest(g, ms, toks) && num in ms && ms[num].outcome.Success?
    decreases |toks|
  {
    if |toks| <= r then []
    else
      var z := |toks| - 1;
      CopiesOf(g, ms, st, toks[..z], num, r) +
      if Delivers(Response(g, ms, st, toks, z), num) then [ms[num].outcome.data] else []
  }

  /** An honest run, frames lost and repeated at will. */
  ghost predicate AnyRun(g: Geometry, ms: Traffic, st: Partials, evs: seq<ClientEvent>, toks: seq<Token>) {
    WellFormed(g, ms) && AllHonest(g, ms, toks) && st.Keys !! ms.Keys && Arrivals(evs) == Frames(g, ms, toks)
  }

  lemma AnyRunSnoc(g: Geometry, ms: Traffic, st: Partials, evs: seq<ClientEvent>, ev: ClientEvent, toks: seq<Token>)
    requires AnyRun(g, ms, st, evs + [ev], toks)
    ensures !ev.Arrive? ==> AnyRun(g, ms, st, evs, toks)
    ensures ev.Arrive? ==>
              var n := |toks| - 1;
              n >= 0 && AnyRun(g, ms, st, evs, toks[..n]) && Frames(g, ms, toks)[n] == ev.frame
  {
    ArrivalsSnoc(evs, ev);
    if ev.Arrive? {
      var n := |toks| - 1;
      assert Arrivals(evs) == Frames(g, ms, toks)[..n] == Frames(g, ms, toks[..n]);
    } else {
      assert Arrivals(evs) + [] == Arrivals(evs);
    }
  }

  /** What the frame that just arrived makes `ParseResp` return. */
  lemma LastResponse(g: Geometry, ms: Traffic, s: (Partials, Waiters), evs: seq<ClientEvent>, toks: seq<Token>)
    requires toks != [] && AllHonest(g, ms, toks) && AnyRun(g, ms, s.0, evs, toks[..|toks| - 1])
    ensures Feed(After(FreeStep(g), s, evs).0, Parse(g, FrameOf(g, ms, toks[|toks| - 1]))).1
         == Response(g, ms, s.0, toks, |toks| - 1)
  {
    var n := |toks| - 1;
    ClientTable(g, s, evs);
    hide Parse, Feed, FrameOf, WellFormed, FreeStep;
    assert ParseAll(g, Frames(g, ms, toks))[..n] == ParseAll(g, Frames(g, ms, toks[..n]));
  }

  lemma RouteCopy(g: Geometry, ms: Traffic, rc: Waiters, num: nat, m: Message, resp: Resp, box: RecvChan)
    requires num in ms && num > 0 && ms[num].num == num && ms[num].outcome.Success?
    requires m.num in ms && ms[m.num] == m && resp in {NOTHING, Expected(g, m)}
    requires num in rc && rc[num] == box
    ensures num in Route(rc, resp)
    ensures Route(rc, resp)[num] ==
            box.(body := box.body + if Delivers(resp, num) then [ms[num].outcome.data] else [])
  {
    assert box.body + [] == box.body;
  }

  /** No caller does anything to box `num` from event o on. */
  ghost predicate Untouched(evs: seq<ClientEvent>, num: nat, o: nat) {
    o <= |evs| && forall i :: o <= i < |evs| ==> !Touches(evs[i], num)
  }

  /** Box `num`, which held `box` after r frames. */
  ghost predicate HasCopies(
    g: Geometry, ms: Traffic, s: (Partials, Waiters), evs: seq<ClientEvent>, toks: seq<Token>,
    num: nat, r: nat, box: RecvChan)
    requires AnyRun(g, ms, s.0, evs, toks) && num in ms && ms[num].outcome.Success?
  {
    var rc := After(FreeStep(g), s, evs).1;
    num in rc && rc[num] == box.(body := box.body + CopiesOf(g, ms, s.0, toks, num, r))
  }

  /** One more frame, had boxes room without end. */
  lemma FreeArrival(
    g: Geometry, ms: Traffic, s: (Partials, Waiters), evs: seq<ClientEvent>, f: Bytes, toks: seq<Token>)
    requires AnyRun(g, ms, s.0, evs + [Arrive(f)], toks)
    ensures toks != []
    ensures var r := Response(g, ms, s.0, toks, |toks| - 1);
            && After(FreeStep(g), s, evs + [Arrive(f)]).1 == Route(After(FreeStep(g), s, evs).1, r)
            && r in {NOTHING, Expected(g, ms[toks[|toks| - 1].num])}
  {
    AnyRunSnoc(g, ms, s.0, evs, Arrive(f), toks);
    hide Parse, Feed, Route, Expected, WellFormed, LinkHolds;
    AfterSnoc(g, s, evs, Arrive(f));
    LastResponse(g, ms, s, evs, toks);
    Safety(g, ms, s.0, toks, |toks| - 1);
  }

  lemma CopiesNext(g: Geometry, ms: Traffic, st: Partials, toks: seq<Token>, num: nat, r: nat)
    requires WellFormed(g, ms) && AllHonest(g, ms, toks) && num in ms && ms[num].outcome.Success? && r < |toks|
    ensures var n := |toks| - 1;
            CopiesOf(g, ms, st, toks, num, r) == CopiesOf(g, ms, st, toks[..n], num, r)
            + if Delivers(Response(g, ms, st, toks, n), num) then [ms[num].outcome.data] else []
  {
  }

  lemma LastIsMessage(g: Geometry, ms: Traffic, toks: seq<Token>, num: nat)
    requires WellFormed(g, ms) && AllHonest(g, ms, toks) && toks != [] && num in ms
    ensures var k := toks[|toks| - 1].num; k in ms && ms[k].num == k && ms[num].num == num > 0
  {
    assert Honest(g, ms, toks[|toks| - 1]);
  }

  lemma CopiesArrival(
    g: Geometry, ms: Traffic, s: (Partials, Waiters), evs: seq<ClientEvent>, f: Bytes, toks: seq<Token>,
    num: nat, r: nat, box: RecvChan)
    requires num in ms && ms[num].outcome.Success? && AnyRun(g, ms, s.0, evs + [Arrive(f)], toks)
    requires toks != [] && r < |toks| && AnyRun(g, ms, s.0, evs, toks[..|toks| - 1])
    requires HasCopies(g, ms, s, evs, toks[..|toks| - 1], num, r, box)
    ensures HasCopies(g, ms, s, evs + [Arrive(f)], toks, num, r, box)
  {
    LastIsMessage(g, ms, toks, num);
    hide WellFormed, AllHonest, CopiesOf, Response, Route, Expected, Delivers, FreeStep, After, Frames, Arrivals;
    FreeArrival(g, ms, s, evs, f, toks);
    CopiesNext(g, ms, s.0, toks, num, r);
    var rc := After(FreeStep(g), s, evs).1;
    var resp := Response(g, ms, s.0, toks, |toks| - 1);
    RouteCopy(g, ms, rc, num, ms[toks[|toks| - 1].num], resp, rc[num]);
  }

  lemma CopiesQuiet(
    g: Geometry, ms: Traffic, s: (Partials, Waiters), evs: seq<ClientEvent>, ev: ClientEvent, toks: seq<Token>,
    num: nat, r: nat, box: RecvChan)
    requires num in ms && ms[num].outcome.Success? && AnyRun(g, ms, s.0, evs + [ev], toks)
    requires !ev.Arrive? && !Touches(ev, num) && AnyRun(g, ms, s.0, evs, toks)
    requires HasCopies(g, ms, s, evs, toks, num, r, box)
    ensures HasCopies(g, ms, s, evs + [ev], toks, num, r, box)
  {
    hide AnyRun, CopiesOf;
    AfterSnoc(g, s, evs, ev);
    QuietBox(g, After(FreeStep(g), s, evs), ev, num);
    hide FreeStep;
  }

  lemma QuietBox(g: Geometry, s: (Partials, Waiters), ev: ClientEvent, num: nat)
    requires !ev.Arrive? && !Touches(ev, num) && num in s.1
    ensures num in FreeStep(g)(s, ev).0.1 && FreeStep(g)(s, ev).0.1[num] == s.1[num]
  {
  }

  lemma CopiesNone(g: Geometry, ms: Traffic, s: (Partials, Waiters), evs: seq<ClientEvent>, toks: seq<Token>, num: nat)
    requires AnyRun(g, ms, s.0, evs, toks) && num in ms && ms[num].outcome.Success?
    requires num in After(FreeStep(g), s, evs).1
    ensures HasCopies(g, ms, s, evs, toks, num, |toks|, After(FreeStep(g), s, evs).1[num])
  {
    var box := After(FreeStep(g), s, evs).1[num];
    assert box.body + [] == box.body;
  }

  /** With room without end, an open box that nobody touches gets one copy of its
      reply for each delivery. */
  lemma {:induction false} CopiesSince(
    g: Geometry, ms: Traffic, s: (Partials, Waiters), evs: seq<ClientEvent>, num: nat, o: nat, toks: seq<Token>)
    requires AnyRun(g, ms, s.0, evs, toks) && num in ms && ms[num].outcome.Success? && Untouched(evs, num, o)
    requires num in After(FreeStep(g), s, evs[..o]).1
    ensures |Arrivals(evs[..o])| <= |toks|
    ensures HasCopies(g, ms, s, evs, toks, num, |Arrivals(evs[..o])|, After(FreeStep(g), s, evs[..o]).1[num])
  {
    if o == |evs| {
      assert evs[..o] == evs;
      CopiesNone(g, ms, s, evs, toks, num);
    } else {
      var z := |evs| - 1;
      var before, ev := evs[..z], evs[z];
      PrefixSnoc(evs, z);
      assert evs == before + [ev] && before[..o] == evs[..o];
      AnyRunSnoc(g, ms, s.0, before, ev, toks);
      var r, box := |Arrivals(evs[..o])|, After(FreeStep(g), s, evs[..o]).1[num];
      hide HasCopies, FreeStep;
      if ev.Arrive? {
        CopiesSince(g, ms, s, before, num, o, toks[..|toks| - 1]);
        CopiesArrival(g, ms, s, before, ev.frame, toks, num, r, box);
      } else {
        CopiesSince(g, ms, s, before, num, o, toks);
        CopiesQuiet(g, ms, s, before, ev, toks, num, r, box);
      }
    }
  }

  lemma ResponsesPrefix(g: Geometry, ms: Traffic, st: Partials, toks: seq<Token>, n: nat)
    requires WellFormed(g, ms) && AllHonest(g, ms, toks) && n <= |toks|
    ensures Responses(g, ms, st, toks)[..n] == Responses(g, ms, st, toks[..n])
  {
    hide Parse, Feed, FrameOf, WellFormed;
    forall t | 0 <= t < n ensures Response(g, ms, st, toks, t) == Response(g, ms, st, toks[..n], t) {
      assert ParseAll(g, Frames(g, ms, toks))[..t] == ParseAll(g, Frames(g, ms, toks[..n]))[..t];
    }
  }

  /** There are as many copies as deliveries since. */
  lemma {:induction false} CopiesCount(g: Geometry, ms: Traffic, st: Partials, toks: seq<Token>, num: nat, r: nat)
    requires WellFormed(g, ms) && AllHonest(g, ms, toks) && num in ms && ms[num].outcome.Success? && r <= |toks|
    ensures |CopiesOf(g, ms, st, toks, num, r)| + Times(Responses(g, ms, st, toks[..r]), num)
         == Times(Responses(g, ms, st, toks), num)
    decreases |toks|
  {
    hide Response, WellFormed;
    if r < |toks| {
      var z := |toks| - 1;
      CopiesCount(g, ms, st, toks[..z], num, r);
      assert toks[..z][..r] == toks[..r];
      ResponsesPrefix(g, ms, st, toks, z);
    } else {
      assert toks[..r] == toks;
    }
  }

  // ---------------------------------------------------------------------------
  // When a send blocks

  /** A loop that has not blocked yet, and its next frame. */
  lemma NextSend(
    g: Geometry, ms: Traffic, s: ConnState, evs: seq<ClientEvent>, f: Bytes, toks: seq<Token>)
    requires AnyRun(g, ms, s.st, evs + [Arrive(f)], toks) && s.loop == Running && Unblocked(g, s, evs)
    ensures toks != []
    ensures After(ClientStep(g), s, evs).rc == After(FreeStep(g), Free(s), evs).1
    ensures OutAt(ClientStep(g), s, evs + [Arrive(f)], |evs|) == Blocked <==>
              !Fits(After(ClientStep(g), s, evs).rc, Response(g, ms, s.st, toks, |toks| - 1))
  {
    AgreesUntilBlocked(g, s, evs);
    AnyRunSnoc(g, ms, s.st, evs, Arrive(f), toks);
    LastResponse(g, ms, Free(s), evs, toks);
    RunSnoc(ClientStep(g), s, evs, Arrive(f));
    var now := After(ClientStep(g), s, evs);
    assert now.loop == Running;
    AgreesOnce(g, now, Arrive(f));
  }

  /** Exactly when a send blocks. Callers may open, read and close boxes at will,
      and frames may be lost and repeated. Box `num`, open, was last touched by its
      caller before event o, and held `box` then. The first send to block is one to
      box `num` exactly if it makes two: the values left in the box and the
      deliveries since. */
  lemma BlocksExactly(
    g: Geometry, ms: Traffic, s: ConnState, evs: seq<ClientEvent>, f: Bytes, toks: seq<Token>, num: nat, o: nat)
    requires AnyRun(g, ms, s.st, evs + [Arrive(f)], toks) && s.loop == Running && Unblocked(g, s, evs)
    requires num in ms && ms[num].outcome.Success? && toks != [] && toks[|toks| - 1].num == num
    requires Untouched(evs, num, o) && num in After(FreeStep(g), Free(s), evs[..o]).1
    ensures var box := After(FreeStep(g), Free(s), evs[..o]).1[num];
            OutAt(ClientStep(g), s, evs + [Arrive(f)], |evs|) == Blocked <==>
              && Delivers(Response(g, ms, s.st, toks, |toks| - 1), num)
              && |box.body| + |CopiesOf(g, ms, s.st, toks, num, |Arrivals(evs[..o])|)| >= 2
  {
    var n := |toks| - 1;
    NextSend(g, ms, s, evs, f, toks);
    AnyRunSnoc(g, ms, s.st, evs, Arrive(f), toks);
    CopiesSince(g, ms, Free(s), evs, num, o, toks[..n]);
    Safety(g, ms, s.st, toks, n);
    assert ms[num].num == num > 0;
    hide AnyRun, Response, ClientStep, FreeStep, Unblocked;
  }

  /** The loop gets through exactly these runs of frames: no box would get a second
      value. */
  ghost predicate NoSecond(g: Geometry, ms: Traffic, s: ConnState, toks: seq<Token>)
    requires WellFormed(g, ms) && AllHonest(g, ms, toks)
  {
    forall num :: num in ms && num in s.rc && ms[num].outcome.Success? ==>
      |s.rc[num].body| + |CopiesOf(g, ms, s.st, toks, num, 0)| <= 1
  }

  ghost predicate Bounded(rc: Waiters) {
    forall num :: num in rc ==> |rc[num].body| <= CAPACITY
  }

  /** The boxes after a run of frames, had they room without end. */
  lemma BoxesAfter(g: Geometry, ms: Traffic, s: ConnState, toks: seq<Token>, num: nat)
    requires WellFormed(g, ms) && AllHonest(g, ms, toks) && s.st.Keys !! ms.Keys
    ensures var rc := After(FreeStep(g), Free(s), ArriveAll(Frames(g, ms, toks))).1;
            && (num in rc <==> num in s.rc)
            && (num in s.rc && num in ms && ms[num].outcome.Success? ==>
                  rc[num].body == s.rc[num].body + CopiesOf(g, ms, s.st, toks, num, 0))
  {
    var evs := ArriveAll(Frames(g, ms, toks));
    LoopIsRun(g, s, Frames(g, ms, toks));
    SameBoxes(g, Free(s), Frames(g, ms, toks), num);
    assert evs[..0] == [];
    if num in s.rc && num in ms && ms[num].outcome.Success? {
      CopiesSince(g, ms, Free(s), evs, num, 0, toks);
    }
  }

  lemma {:induction false} SameBoxes(g: Geometry, s: (Partials, Waiters), frames: seq<Bytes>, num: nat)
    ensures num in After(FreeStep(g), s, ArriveAll(frames)).1 <==> num in s.1
  {
    if frames != [] {
      var z := |frames| - 1;
      SameBoxes(g, s, frames[..z], num);
      assert ArriveAll(frames) == ArriveAll(frames[..z]) + [Arrive(frames[z])];
      AfterSnoc(g, s, ArriveAll(frames[..z]), Arrive(frames[z]));
    }
  }

  lemma {:induction false} RoomyExactly(g: Geometry, ms: Traffic, s: ConnState, toks: seq<Token>)
    requires WellFormed(g, ms) && AllHonest(g, ms, toks) && s.st.Keys !! ms.Keys && Bounded(s.rc)
    ensures Roomy(g, Free(s), ArriveAll(Frames(g, ms, toks))) <==> NoSecond(g, ms, s, toks)
    decreases |toks|
  {
    if toks != [] {
      hide Roomy, NoSecond, Bounded, WellFormed, FrameOf;
      RoomyExactly(g, ms, s, toks[..|toks| - 1]);
      RoomyNext(g, ms, s, toks);
    }
  }

  lemma RoomyNext(g: Geometry, ms: Traffic, s: ConnState, toks: seq<Token>)
    requires WellFormed(g, ms) && AllHonest(g, ms, toks) && s.st.Keys !! ms.Keys && toks != []
    requires Roomy(g, Free(s), ArriveAll(Frames(g, ms, toks[..|toks| - 1]))) <==> NoSecond(g, ms, s, toks[..|toks| - 1])
    ensures Roomy(g, Free(s), ArriveAll(Frames(g, ms, toks))) <==> NoSecond(g, ms, s, toks)
  {
    hide Roomy, NoSecond, Fits, Parse, FrameOf, Feed, WellFormed, FreeStep, ClientStep, Receive;
    var n := |toks| - 1;
    var frames := Frames(g, ms, toks);
    var evs := ArriveAll(frames[..n]);
    assert frames[..n] == Frames(g, ms, toks[..n]);
    assert ArriveAll(frames) == evs + [Arrive(frames[n])];
    LoopIsRun(g, s, frames[..n]);
    RoomySnoc(g, Free(s), evs, Arrive(frames[n]));
    NextResponse(g, ms, s, toks);
    OneMore(g, ms, s, toks, After(FreeStep(g), Free(s), evs).1);
  }

  lemma NextResponse(g: Geometry, ms: Traffic, s: ConnState, toks: seq<Token>)
    requires WellFormed(g, ms) && AllHonest(g, ms, toks) && s.st.Keys !! ms.Keys && toks != []
    ensures var n := |toks| - 1;
            var evs := ArriveAll(Frames(g, ms, toks[..n]));
            FreeStep(g)(After(FreeStep(g), Free(s), evs), Arrive(Frames(g, ms, toks)[n])).1
            == Response(g, ms, s.st, toks, n)
  {
    var n := |toks| - 1;
    LoopIsRun(g, s, Frames(g, ms, toks[..n]));
    LastResponse(g, ms, Free(s), ArriveAll(Frames(g, ms, toks[..n])), toks);
  }

  /** One more frame. */
  lemma OneMore(g: Geometry, ms: Traffic, s: ConnState, toks: seq<Token>, rc: Waiters)
    requires WellFormed(g, ms) && AllHonest(g, ms, toks) && s.st.Keys !! ms.Keys && toks != []
    requires rc == After(FreeStep(g), Free(s), ArriveAll(Frames(g, ms, toks[..|toks| - 1]))).1
    ensures NoSecond(g, ms, s, toks) <==>
              NoSecond(g, ms, s, toks[..|toks| - 1]) && Fits(rc, Response(g, ms, s.st, toks, |toks| - 1))
  {
    var n := |toks| - 1;
    var num := toks[n].num;
    assert Honest(g, ms, toks[n]) && ms[num].num == num > 0;
    BoxesAfter(g, ms, s, toks[..n], num);
    Safety(g, ms, s.st, toks, n);
    hide Response, WellFormed, FreeStep;
    forall k | k in ms && ms[k].outcome.Success?
      ensures |CopiesOf(g, ms, s.st, toks, k, 0)| == |CopiesOf(g, ms, s.st, toks[..n], k, 0)|
              + if Delivers(Response(g, ms, s.st, toks, n), k) then 1 else 0
    {
    }
  }

  /** The frames of no reply come in as many full sets as it takes for its open box
      to have two values: two sets for an empty box, one for a full one. */
  ghost predicate NoOverflow(g: Geometry, ms: Traffic, rc: Waiters, toks: seq<Token>)
    requires Bounded(rc)
  {
    forall num :: num in ms && num in rc && ms[num].outcome.Success? ==>
      !Covers(Width(g, ms[num]), toks, num, |toks|, 2 - |rc[num].body|)
  }

  /** Exactly which runs a read loop gets through when nobody reads the boxes
      meanwhile. Boxes hold at most one value when it starts. The loop blocks
      exactly if some box overflows. It never panics. */
  lemma GetsThroughExactly(g: Geometry, ms: Traffic, s: ConnState, toks: seq<Token>)
    requires WellFormed(g, ms) && AllHonest(g, ms, toks) && s.st.Keys !! ms.Keys && Bounded(s.rc) && s.loop == Running
    ensures GetsThrough(s, ParseAll(g, Frames(g, ms, toks))) <==> NoOverflow(g, ms, s.rc, toks)
    ensures forall t :: 0 <= t < |toks| ==> OutAt(Receive, s, ParseAll(g, Frames(g, ms, toks)), t) != Panic
  {
    hide Covers, WellFormed, Roomy, ClientStep, Receive, NoSecond, NoOverflow, FrameOf, Parse;
    var frames := Frames(g, ms, toks);
    LoopIsRun(g, s, frames);
    NeverPanics(g, ms, s, ArriveAll(frames), toks);
    AgreesUntilBlocked(g, s, ArriveAll(frames));
    RoomyExactly(g, ms, s, toks);
    SecondIsCover(g, ms, s, toks);
  }

  lemma SecondIsCover(g: Geometry, ms: Traffic, s: ConnState, toks: seq<Token>)
    requires WellFormed(g, ms) && AllHonest(g, ms, toks) && s.st.Keys !! ms.Keys && Bounded(s.rc)
    ensures NoSecond(g, ms, s, toks) <==> NoOverflow(g, ms, s.rc, toks)
  {
    hide Covers, WellFormed, CopiesOf;
    forall num | num in ms && num in s.rc && ms[num].outcome.Success?
      ensures |s.rc[num].body| + |CopiesOf(g, ms, s.st, toks, num, 0)| <= 1 <==>
                !Covers(Width(g, ms[num]), toks, num, |toks|, 2 - |s.rc[num].body|)
    {
      CoverIsCopies(g, ms, s.st, toks, num, 2 - |s.rc[num].body|);
    }
  }

  lemma CoverIsCopies(g: Geometry, ms: Traffic, st: Partials, toks: seq<Token>, num: nat, k: nat)
    requires WellFormed(g, ms) && AllHonest(g, ms, toks) && st.Keys !! ms.Keys
    requires num in ms && ms[num].outcome.Success?
    ensures k <= |CopiesOf(g, ms, st, toks, num, 0)| <==> Covers(Width(g, ms[num]), toks, num, |toks|, k)
  {
    hide Covers, Response;
    CopiesCount(g, ms, st, toks, num, 0);
    DeliveredAtLeast(g, ms, st, toks, num, k);
    assert Times([], num) == 0 && Responses(g, ms, st, toks[..0]) == [];
  }

  /** The frames of any one reply, twice over, block a loop whose caller does not
      read its box in between. */
  lemma RepeatedReplyBlocks(g: Geometry, ms: Traffic, s: ConnState, num: nat)
    requires WellFormed(g, ms) && s.st.Keys !! ms.Keys && Bounded(s.rc) && s.loop == Running
    requires num in ms && ms[num].outcome.Success? && num in s.rc
    ensures var once := Whole(num, Width(g, ms[num]));
            AllHonest(g, ms, once + once) && !GetsThrough(s, ParseAll(g, Frames(g, ms, once + once)))
  {
    hide Covers, GetsThrough, Parse, FrameOf, WellFormed, Receive;
    var w := Width(g, ms[num]);
    var once := Whole(num, w);
    TwiceCovers(num, w);
    CoversFewer(w, once + once, num, 2 * w, 2, 2 - |s.rc[num].body|);
    GetsThroughExactly(g, ms, s, once + once);
  }

  lemma CoversFewer(w: nat, toks: seq<Token>, num: nat, t: nat, k: nat, k': nat)
    requires t <= |toks| && k' <= k <= 2 && Covers(w, toks, num, t, k)
    ensures Covers(w, toks, num, t, k')
  {
    if k' == 1 && k == 2 {
      var s := CoversSplit(w, toks, num, t, k);
      assert Covers(w, toks, num, s, 0);
    }
  }
}
