/** The client side of a call: callers open, read and close their boxes while reply
    frames arrive. Here boxes have room without end; `Channels` says how the real
    ones, which hold one value, relate to that. */
module Client {
  import opened Wire
  import opened Reassembler
  import opened Runs
  import opened Collector
  import opened Delivery

  datatype ClientEvent =
    | Arrive(frame: Bytes)
    | Open(num: nat)             // NewChan
    | Take(num: nat, err: bool)  // a receive from one of the channels
    | Close(num: nat)            // DelChan

  ghost function FreeStep(g: Geometry): ((Partials, Waiters), ClientEvent) -> ((Partials, Waiters), Resp) {
    (s: (Partials, Waiters), ev: ClientEvent) =>
      match ev
      case Arrive(frame) => FreeReceive(s, Parse(g, frame))
      case Open(num) => ((s.0, s.1[num := EMPTY_BOX]), NOTHING)
      case Take(num, err) => ((s.0, Popped(s.1, num, err)), NOTHING)
      case Close(num) => ((s.0, s.1 - {num}), NOTHING)
  }

  ghost function FreeReceive(s: (Partials, Waiters), p: Parsed): ((Partials, Waiters), Resp) {
    var (st, r) := Feed(s.0, p);
    ((st, Route(s.1, r)), r)
  }

  /** A caller does something to box `num`. */
  ghost predicate Touches(ev: ClientEvent, num: nat) {
    !ev.Arrive? && ev.num == num
  }

  /** The frames of a run, in arrival order. */
  ghost function Arrivals(evs: seq<ClientEvent>): seq<Bytes> {
    if evs == [] then []
    else
      var z := |evs| - 1;
      Arrivals(evs[..z]) + if evs[z].Arrive? then [evs[z].frame] else []
  }

  lemma ArrivalsSnoc(evs: seq<ClientEvent>, ev: ClientEvent)
    ensures Arrivals(evs + [ev]) == Arrivals(evs) + if ev.Arrive? then [ev.frame] else []
  {
    assert (evs + [ev])[..|evs|] == evs;
  }

  lemma AfterSnoc(g: Geometry, s: (Partials, Waiters), evs: seq<ClientEvent>, ev: ClientEvent)
    ensures After(FreeStep(g), s, evs + [ev]) == FreeStep(g)(After(FreeStep(g), s, evs), ev).0
  {
    assert (evs + [ev])[..|evs|] == evs;
  }

  /** Opening and closing boxes does not touch the table of partial messages. */
  lemma {:induction false} ClientTable(g: Geometry, s: (Partials, Waiters), evs: seq<ClientEvent>)
    ensures After(FreeStep(g), s, evs).0 == After(Feed, s.0, ParseAll(g, Arrivals(evs)))
  {
    if evs != [] {
      var z := |evs| - 1;
      ClientTable(g, s, evs[..z]);
      if evs[z].Arrive? {
        var ps := ParseAll(g, Arrivals(evs));
        assert ps[..|ps| - 1] == ParseAll(g, Arrivals(evs[..z]));
        assert ps[|ps| - 1] == Parse(g, evs[z].frame);
      } else {
        assert Arrivals(evs) == Arrivals(evs[..z]);
      }
    }
  }

  /** The frames that reach a client are frames of `ms`, none of them twice. */
  ghost predicate HonestRun(g: Geometry, ms: Traffic, st: Partials, evs: seq<ClientEvent>, toks: seq<Token>) {
    && WellFormed(g, ms) && AllHonest(g, ms, toks) && Distinct(toks) && st.Keys !! ms.Keys
    && Arrivals(evs) == Frames(g, ms, toks)
  }

  /** The box `num` is opened by event o and not touched by any caller again. */
  ghost predicate OpenedAt(evs: seq<ClientEvent>, num: nat, o: nat) {
    && o < |evs| && evs[o] == Open(num)
    && forall i :: o < i < |evs| ==> !Touches(evs[i], num)
  }

  /** The box of a caller that opened it after the first r frames. */
  ghost function Inbox(g: Geometry, ms: Traffic, toks: seq<Token>, num: nat, r: nat): RecvChan
    requires num in ms && r <= |toks|
  {
    if !Complete(g, ms, toks[..r], num) && Complete(g, ms, toks, num) && ms[num].outcome.Success?
    then RecvChan([ms[num].outcome.data], []) else RecvChan([], [])
  }

  /** An honest run without its last event. */
  lemma HonestSnoc(g: Geometry, ms: Traffic, st: Partials, evs: seq<ClientEvent>, ev: ClientEvent, toks: seq<Token>)
    requires HonestRun(g, ms, st, evs + [ev], toks)
    ensures !ev.Arrive? ==> HonestRun(g, ms, st, evs, toks)
    ensures ev.Arrive? ==>
              var n := |toks| - 1;
              n >= 0 && HonestRun(g, ms, st, evs, toks[..n]) && ev.frame == FrameOf(g, ms, toks[n])
  {
    ArrivalsSnoc(evs, ev);
    if ev.Arrive? {
      var n := |toks| - 1;
      assert Arrivals(evs) == Frames(g, ms, toks)[..n] == Frames(g, ms, toks[..n]);
      assert Frames(g, ms, toks)[n] == ev.frame;
    } else {
      assert Arrivals(evs) + [] == Arrivals(evs);
    }
  }

  /** What the last frame of a run returns. */
  lemma ReceivedLast(g: Geometry, ms: Traffic, s: (Partials, Waiters), evs: seq<ClientEvent>, toks: seq<Token>)
    requires toks != [] && HonestRun(g, ms, s.0, evs, toks[..|toks| - 1])
    requires AllHonest(g, ms, toks) && Distinct(toks)
    ensures var last := toks[|toks| - 1];
            Feed(After(FreeStep(g), s, evs).0, Parse(g, FrameOf(g, ms, last))).1 ==
            if Complete(g, ms, toks, last.num) then Expected(g, ms[last.num]) else NOTHING
  {
    hide Parse, Feed, FrameOf, FreeStep, WellFormed, Complete;
    var n := |toks| - 1;
    ClientTable(g, s, evs);
    DeliveredOnLastArrival(g, ms, s.0, toks, n);
    assert toks[..n + 1] == toks;
    assert ParseAll(g, Frames(g, ms, toks))[..n] == ParseAll(g, Frames(g, ms, toks[..n]));
  }

  lemma SeenBounded(g: Geometry, ms: Traffic, toks: seq<Token>, num: nat)
    requires AllHonest(g, ms, toks) && num in ms
    ensures Seen(toks, num) <= All(Width(g, ms[num]))
  {
  }

  /** The next frame completes at most its own message, and only if that was
      incomplete so far. */
  lemma CompleteStep(g: Geometry, ms: Traffic, toks: seq<Token>, num: nat, r: nat)
    requires AllHonest(g, ms, toks) && Distinct(toks) && num in ms && r < |toks|
    ensures var n := |toks| - 1;
            if toks[n].num == num then !Complete(g, ms, toks[..n], num) && !Complete(g, ms, toks[..r], num)
            else Complete(g, ms, toks[..n], num) <==> Complete(g, ms, toks, num)
  {
    var n := |toks| - 1;
    OpenSlot(g, ms, toks, n);
    assert toks[..n + 1] == toks && toks[..n][..r] == toks[..r];
    SeenMonotone(toks[..n], r, num);
    SeenBounded(g, ms, toks[..n], num);
  }

  lemma RouteOther(rc: Waiters, resp: Resp, num: nat)
    requires num in rc && (resp.Resp? ==> resp.num != num || num == 0)
    ensures num in Route(rc, resp) && Route(rc, resp)[num] == rc[num]
  {
  }

  /** A frame of another message does not count for `num`. */
  lemma SameInbox(g: Geometry, ms: Traffic, toks: seq<Token>, num: nat, r: nat)
    requires AllHonest(g, ms, toks) && Distinct(toks) && num in ms && r < |toks| && toks[|toks| - 1].num != num
    ensures Inbox(g, ms, toks[..|toks| - 1], num, r) == Inbox(g, ms, toks, num, r)
  {
    hide Complete, Distinct, AllHonest;
    assert toks[..|toks| - 1][..r] == toks[..r];
    CompleteStep(g, ms, toks, num, r);
  }

  lemma OtherNumber(g: Geometry, ms: Traffic, t: Token, num: nat)
    requires WellFormed(g, ms) && Honest(g, ms, t) && t.num != num && num in ms
    ensures Expected(g, ms[t.num]).Resp? && Expected(g, ms[t.num]).num != num > 0
  {
  }

  /** A frame of another message leaves the box of `num` as it is. */
  lemma InboxOther(g: Geometry, ms: Traffic, toks: seq<Token>, num: nat, r: nat, rc: Waiters, resp: Resp)
    requires WellFormed(g, ms) && AllHonest(g, ms, toks) && Distinct(toks) && num in ms && r < |toks|
    requires num in rc && rc[num] == Inbox(g, ms, toks[..|toks| - 1], num, r)
    requires var t := toks[|toks| - 1];
             && t.num != num
             && resp == if Complete(g, ms, toks, t.num) then Expected(g, ms[t.num]) else NOTHING
    ensures num in Route(rc, resp) && Route(rc, resp)[num] == Inbox(g, ms, toks, num, r)
  {
    var t := toks[|toks| - 1];
    assert Honest(g, ms, t);
    hide Complete, Distinct, AllHonest, WellFormed, Expected, Route, Inbox;
    SameInbox(g, ms, toks, num, r);
    OtherNumber(g, ms, t, num);
    RouteOther(rc, resp, num);
  }

  /** A frame of message `num` fills its box if it is the last. */
  lemma InboxOwn(g: Geometry, ms: Traffic, toks: seq<Token>, num: nat, r: nat, rc: Waiters, resp: Resp)
    requires WellFormed(g, ms) && AllHonest(g, ms, toks) && Distinct(toks) && num in ms && r < |toks|
    requires num in rc && rc[num] == Inbox(g, ms, toks[..|toks| - 1], num, r)
    requires toks[|toks| - 1].num == num
    requires resp == if Complete(g, ms, toks, num) then Expected(g, ms[num]) else NOTHING
    ensures num in Route(rc, resp) && Route(rc, resp)[num] == Inbox(g, ms, toks, num, r)
  {
    hide Complete, Distinct, AllHonest;
    CompleteStep(g, ms, toks, num, r);
    assert 1 <= num && ms[num].num == num;
    assert rc[num] == RecvChan([], []);
  }

  /** Routing the result of the last frame to the box of `num`. */
  lemma InboxNext(g: Geometry, ms: Traffic, toks: seq<Token>, num: nat, r: nat, rc: Waiters, resp: Resp)
    requires WellFormed(g, ms) && AllHonest(g, ms, toks) && Distinct(toks) && num in ms && r < |toks|
    requires num in rc && rc[num] == Inbox(g, ms, toks[..|toks| - 1], num, r)
    requires var last := toks[|toks| - 1];
             resp == if Complete(g, ms, toks, last.num) then Expected(g, ms[last.num]) else NOTHING
    ensures num in Route(rc, resp) && Route(rc, resp)[num] == Inbox(g, ms, toks, num, r)
  {
    if toks[|toks| - 1].num == num {
      InboxOwn(g, ms, toks, num, r, rc, resp);
    } else {
      InboxOther(g, ms, toks, num, r, rc, resp);
    }
  }

  /** After `evs`, the box of `num` holds what it should. */
  ghost predicate Boxed(
    g: Geometry, ms: Traffic, s: (Partials, Waiters), evs: seq<ClientEvent>, toks: seq<Token>, num: nat, r: nat)
    requires num in ms
  {
    var rc := After(FreeStep(g), s, evs).1;
    r <= |toks| && num in rc && rc[num] == Inbox(g, ms, toks, num, r)
  }

  /** A frame arrives. */
  lemma BoxedArrival(
    g: Geometry, ms: Traffic, s: (Partials, Waiters), evs: seq<ClientEvent>, toks: seq<Token>, num: nat, r: nat)
    requires num in ms && toks != [] && HonestRun(g, ms, s.0, evs, toks[..|toks| - 1])
    requires AllHonest(g, ms, toks) && Distinct(toks)
    requires Boxed(g, ms, s, evs, toks[..|toks| - 1], num, r)
    ensures Boxed(g, ms, s, evs + [Arrive(FrameOf(g, ms, toks[|toks| - 1]))], toks, num, r)
  {
    var frame := FrameOf(g, ms, toks[|toks| - 1]);
    AfterSnoc(g, s, evs, Arrive(frame));
    ReceivedLast(g, ms, s, evs, toks);
    var now := After(FreeStep(g), s, evs);
    InboxNext(g, ms, toks, num, r, now.1, Feed(now.0, Parse(g, frame)).1);
  }

  /** Another caller opens or closes its box. */
  lemma BoxedQuiet(
    g: Geometry, ms: Traffic, s: (Partials, Waiters), evs: seq<ClientEvent>, ev: ClientEvent, toks: seq<Token>,
    num: nat, r: nat)
    requires num in ms && !ev.Arrive? && !Touches(ev, num)
    requires Boxed(g, ms, s, evs, toks, num, r)
    ensures Boxed(g, ms, s, evs + [ev], toks, num, r)
  {
    AfterSnoc(g, s, evs, ev);
  }

  /** The caller opens its box. */
  lemma BoxedOpen(g: Geometry, ms: Traffic, s: (Partials, Waiters), evs: seq<ClientEvent>, toks: seq<Token>, num: nat)
    requires num in ms
    ensures Boxed(g, ms, s, evs + [Open(num)], toks, num, |toks|)
  {
    AfterSnoc(g, s, evs, Open(num));
    assert toks[..|toks|] == toks;
  }

  /** The last event of a run in which the box of `num` is open. */
  lemma BoxedNext(
    g: Geometry, ms: Traffic, s: (Partials, Waiters), evs: seq<ClientEvent>, ev: ClientEvent, toks: seq<Token>,
    num: nat, r: nat)
    requires num in ms && !Touches(ev, num)
    requires HonestRun(g, ms, s.0, evs + [ev], toks)
    requires var before := if ev.Arrive? && toks != [] then toks[..|toks| - 1] else toks;
             Boxed(g, ms, s, evs, before, num, r)
    ensures Boxed(g, ms, s, evs + [ev], toks, num, r)
  {
    HonestSnoc(g, ms, s.0, evs, ev, toks);
    if ev.Arrive? {
      BoxedArrival(g, ms, s, evs, toks, num, r);
    } else {
      BoxedQuiet(g, ms, s, evs, ev, toks, num, r);
    }
  }

  lemma OpenedBefore(evs: seq<ClientEvent>, ev: ClientEvent, num: nat, o: nat)
    requires OpenedAt(evs + [ev], num, o) && o < |evs|
    ensures OpenedAt(evs, num, o) && !Touches(ev, num)
    ensures (evs + [ev])[..o] == evs[..o]
  {
    assert (evs + [ev])[|evs|] == ev;
    assert forall i :: 0 <= i < |evs| ==> (evs + [ev])[i] == evs[i];
  }

  lemma {:induction false} BoxedAlways(
    g: Geometry, ms: Traffic, s: (Partials, Waiters), evs: seq<ClientEvent>, num: nat, o: nat, toks: seq<Token>)
    requires HonestRun(g, ms, s.0, evs, toks) && num in ms && OpenedAt(evs, num, o)
    ensures Boxed(g, ms, s, evs, toks, num, |Arrivals(evs[..o])|)
  {
    var z := |evs| - 1;
    var before, ev := evs[..z], evs[z];
    PrefixSnoc(evs, z);
    assert evs == before + [ev];
    HonestSnoc(g, ms, s.0, before, ev, toks);
    if o == z {
      BoxedOpen(g, ms, s, before, toks, num);
    } else {
      OpenedBefore(before, ev, num, o);
      BoxedAlways(g, ms, s, before, num, o, if ev.Arrive? then toks[..|toks| - 1] else toks);
      BoxedNext(g, ms, s, before, ev, toks, num, |Arrivals(evs[..o])|);
    }
  }

  /** A caller that opens its box and leaves it open gets its reply, once, with
      the exact bytes and nothing of anyone else's, if the last frame of the
      reply arrives after the box was opened; a reply that was complete before,
      or that reports an error, never reaches it. */
  lemma WaiterGets(
    g: Geometry, ms: Traffic, s: (Partials, Waiters), evs: seq<ClientEvent>, num: nat, o: nat, toks: seq<Token>)
    requires HonestRun(g, ms, s.0, evs, toks) && num in ms && OpenedAt(evs, num, o)
    ensures |Arrivals(evs[..o])| <= |toks|
    ensures var rc := After(FreeStep(g), s, evs).1;
            num in rc && rc[num] == Inbox(g, ms, toks, num, |Arrivals(evs[..o])|)
  {
    BoxedAlways(g, ms, s, evs, num, o, toks);
  }
}
