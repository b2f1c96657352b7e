/** What goes through a box, whether the read loop blocks or not: values are neither
    lost nor made up nor reordered, and a receive gets a blocked loop going again. */
module Conservation {
  import opened Common
  import opened Wire
  import opened Reassembler
  import opened Runs
  import opened Collector
  import opened Delivery
  import opened Client
  import opened Channels

  // ---------------------------------------------------------------------------
  // A blocked loop and its box

  /** Channels hold no more than they can, and the loop blocks on a full one. */
  ghost predicate Sane(s: ConnState) {
    && (forall k :: k in s.rc ==> |s.rc[k].body| <= 1 && |s.rc[k].err| <= 1)
    && (s.loop.Sending? ==>
          var r := s.loop.r;
          && r.Resp? && r.num > 0 && r.num in s.rc
          && (if r.err.Some? then |s.rc[r.num].err| == 1 else |s.rc[r.num].body| == 1))
  }

  lemma SaneStep(g: Geometry, s: ConnState, ev: ClientEvent)
    requires Sane(s)
    ensures Sane(ClientStep(g)(s, ev).0)
  {
    hide Parse, Feed;
  }

  /** In every state of a run, the loop waits to send only while the channel it sends
      to is full. */
  lemma {:induction false} BlockedMeansFull(g: Geometry, s: ConnState, evs: seq<ClientEvent>)
    requires Sane(s)
    ensures Sane(After(ClientStep(g), s, evs))
  {
    if evs != [] {
      hide ClientStep, Sane;
      var z := |evs| - 1;
      BlockedMeansFull(g, s, evs[..z]);
      SaneStep(g, After(ClientStep(g), s, evs[..z]), evs[z]);
    }
  }

  /** A caller opens or deletes the box that the loop is about to send to. */
  ghost predicate Abandons(s: ConnState, ev: ClientEvent) {
    (ev.Open? || ev.Close?) && SendsTo(s.loop, ev.num)
  }

  lemma StuckStep(g: Geometry, s: ConnState, ev: ClientEvent)
    ensures ClientStep(g)(s, ev).0.loop == Stuck <==> s.loop == Stuck || Abandons(s, ev)
  {
    hide Parse, Feed;
  }

  ghost predicate SomeAbandons(g: Geometry, s: ConnState, evs: seq<ClientEvent>) {
    exists t :: 0 <= t < |evs| && Abandons(After(ClientStep(g), s, evs[..t]), evs[t])
  }

  lemma SomeAbandonsSnoc(g: Geometry, s: ConnState, evs: seq<ClientEvent>, ev: ClientEvent)
    ensures SomeAbandons(g, s, evs + [ev]) <==>
              SomeAbandons(g, s, evs) || Abandons(After(ClientStep(g), s, evs), ev)
  {
    hide ClientStep, Abandons, After;
    var all := evs + [ev];
    assert all[..|evs|] == evs && all[|evs|] == ev;
    assert forall t :: 0 <= t < |evs| ==> all[..t] == evs[..t] && all[t] == evs[t];
  }

  /** And that is the only way for the loop to block for good. */
  lemma {:induction false} StuckExactly(g: Geometry, s: ConnState, evs: seq<ClientEvent>)
    requires s.loop != Stuck
    ensures After(ClientStep(g), s, evs).loop == Stuck <==> SomeAbandons(g, s, evs)
  {
    if evs != [] {
      hide ClientStep, Abandons, SomeAbandons;
      var z := |evs| - 1;
      PrefixSnoc(evs, z);
      assert evs == evs[..z] + [evs[z]];
      StuckExactly(g, s, evs[..z]);
      StuckStep(g, After(ClientStep(g), s, evs[..z]), evs[z]);
      SomeAbandonsSnoc(g, s, evs[..z], evs[z]);
    }
  }

  // ---------------------------------------------------------------------------
  // What goes in and what comes out

  /** The value a caller takes out of box `num` with this event, if any. */
  ghost function TakenOut(s: ConnState, ev: ClientEvent, num: nat): seq<Bytes> {
    if ev == Take(num, false) && num in s.rc && s.rc[num].body != [] then [s.rc[num].body[0]] else []
  }

  /** The reply `num` that this event makes the loop send, if any. */
  ghost function Delivered(g: Geometry, s: ConnState, ev: ClientEvent, num: nat): seq<Bytes> {
    if ev.Arrive? && s.loop == Running then
      var r := Feed(s.st, Parse(g, ev.frame)).1;
      if r.Resp? && r.num == num && r.err == None then [r.data] else []
    else []
  }

  /** What callers took out of box `num` from event o on. */
  ghost function AllTaken(g: Geometry, s: ConnState, evs: seq<ClientEvent>, num: nat, o: nat): seq<Bytes> {
    if |evs| <= o then []
    else
      var z := |evs| - 1;
      AllTaken(g, s, evs[..z], num, o) + TakenOut(After(ClientStep(g), s, evs[..z]), evs[z], num)
  }

  /** The replies `num` that the loop read from event o on. */
  ghost function AllDelivered(g: Geometry, s: ConnState, evs: seq<ClientEvent>, num: nat, o: nat): seq<Bytes> {
    if |evs| <= o then []
    else
      var z := |evs| - 1;
      AllDelivered(g, s, evs[..z], num, o) + Delivered(g, After(ClientStep(g), s, evs[..z]), evs[z], num)
  }

  /** What a blocked loop has in hand for box `num`. */
  ghost function InHand(loop: Loop, num: nat): seq<Bytes> {
    if SendsTo(loop, num) && loop.r.err == None then [loop.r.data] else []
  }

  /** The box `num` is opened by event o, and neither replaced nor deleted since. */
  ghost predicate OpenSince(evs: seq<ClientEvent>, num: nat, o: nat) {
    && o < |evs| && evs[o] == Open(num)
    && forall i :: o < i < |evs| ==> evs[i] != Open(num) && evs[i] != Close(num)
  }

  ghost predicate Conserved(taken: seq<Bytes>, s: ConnState, num: nat, delivered: seq<Bytes>) {
    num in s.rc && taken + s.rc[num].body + InHand(s.loop, num) == delivered
  }

  lemma ConservedArrival(g: Geometry, s: ConnState, f: Bytes, num: nat, taken: seq<Bytes>, delivered: seq<Bytes>)
    requires Sane(s) && num > 0 && Conserved(taken, s, num, delivered)
    ensures Conserved(taken, ClientStep(g)(s, Arrive(f)).0, num, delivered + Delivered(g, s, Arrive(f), num))
  {
    var r := Feed(s.st, Parse(g, f)).1;
    hide Parse, Feed;
    if s.loop == Running {
      assert InHand(s.loop, num) == [];
    } else {
      assert delivered + [] == delivered;
    }
  }

  lemma ConservedTake(g: Geometry, s: ConnState, ev: ClientEvent, num: nat, taken: seq<Bytes>, delivered: seq<Bytes>)
    requires Sane(s) && num > 0 && Conserved(taken, s, num, delivered) && ev.Take?
    ensures Conserved(taken + TakenOut(s, ev, num), ClientStep(g)(s, ev).0, num, delivered)
  {
    if ev == Take(num, false) && s.rc[num].body != [] {
      assert s.rc[num].body == [s.rc[num].body[0]];
    } else {
      assert taken + [] == taken;
    }
  }

  lemma ConservedQuiet(g: Geometry, s: ConnState, ev: ClientEvent, num: nat, taken: seq<Bytes>, delivered: seq<Bytes>)
    requires Conserved(taken, s, num, delivered) && (ev.Open? || ev.Close?) && ev.num != num
    ensures Conserved(taken, ClientStep(g)(s, ev).0, num, delivered)
  {
  }

  lemma ConservedStep(g: Geometry, s: ConnState, ev: ClientEvent, num: nat, taken: seq<Bytes>, delivered: seq<Bytes>)
    requires Sane(s) && num > 0 && Conserved(taken, s, num, delivered) && ev != Open(num) && ev != Close(num)
    ensures Conserved(taken + TakenOut(s, ev, num), ClientStep(g)(s, ev).0, num, delivered + Delivered(g, s, ev, num))
  {
    hide Conserved, Sane, Parse, Feed, ClientStep;
    assert taken + [] == taken && delivered + [] == delivered;
    match ev
    case Arrive(f) => ConservedArrival(g, s, f, num, taken, delivered);
    case Take(_, _) => ConservedTake(g, s, ev, num, taken, delivered);
    case Open(_) => ConservedQuiet(g, s, ev, num, taken, delivered);
    case Close(_) => ConservedQuiet(g, s, ev, num, taken, delivered);
  }

  lemma ConservedOpen(g: Geometry, s: ConnState, num: nat)
    ensures Conserved([], ClientStep(g)(s, Open(num)).0, num, [])
  {
  }

  /** Conservation, over every run, of any frames, and whether the loop blocks or not.
      As long as a box is open: what its callers took out, followed by what is in it,
      followed by what a blocked loop has in hand for it, are the replies of its
      number that the loop read, in order. */
  lemma {:induction false} NothingLostOrMadeUp(
    g: Geometry, s: ConnState, evs: seq<ClientEvent>, num: nat, o: nat)
    requires Sane(s) && num > 0 && OpenSince(evs, num, o)
    ensures var now := After(ClientStep(g), s, evs);
            && num in now.rc
            && AllTaken(g, s, evs, num, o + 1) + now.rc[num].body + InHand(now.loop, num)
               == AllDelivered(g, s, evs, num, o + 1)
  {
    var z := |evs| - 1;
    var now := After(ClientStep(g), s, evs[..z]);
    if z == o {
      ConservedOpen(g, now, num);
      assert AllTaken(g, s, evs, num, o + 1) == [] == AllDelivered(g, s, evs, num, o + 1);
    } else {
      hide ClientStep, Sane, InHand, TakenOut, Delivered;
      NothingLostOrMadeUp(g, s, evs[..z], num, o);
      BlockedMeansFull(g, s, evs[..z]);
      var taken, delivered := AllTaken(g, s, evs[..z], num, o + 1), AllDelivered(g, s, evs[..z], num, o + 1);
      ConservedStep(g, now, evs[z], num, taken, delivered);
    }
  }

  /** Number 0 is never answered, whatever arrives: its box stays empty as long as it is
      open. */
  lemma {:induction false} NumberZeroHearsNothing(g: Geometry, s: ConnState, evs: seq<ClientEvent>, o: nat)
    requires Sane(s) && OpenSince(evs, 0, o)
    ensures var rc := After(ClientStep(g), s, evs).rc; 0 in rc && rc[0] == EMPTY_BOX
  {
    var z := |evs| - 1;
    if z == o {
      assert After(ClientStep(g), s, evs) == Opened(After(ClientStep(g), s, evs[..z]), 0);
    } else {
      hide ClientStep, Sane;
      NumberZeroHearsNothing(g, s, evs[..z], o);
      BlockedMeansFull(g, s, evs[..z]);
      ZeroStep(g, After(ClientStep(g), s, evs[..z]), evs[z]);
    }
  }

  lemma ZeroStep(g: Geometry, s: ConnState, ev: ClientEvent)
    requires Sane(s) && 0 in s.rc && s.rc[0] == EMPTY_BOX && ev != Open(0) && ev != Close(0)
    ensures var rc := ClientStep(g)(s, ev).0.rc; 0 in rc && rc[0] == EMPTY_BOX
  {
    hide Parse, Feed;
  }

  // ---------------------------------------------------------------------------
  // A receive gets the loop going

  /** Receiving from the box it blocks on makes the loop ready again, and puts its
      value into the box. */
  lemma TakeFrees(g: Geometry, s: ConnState, num: nat)
    requires Sane(s) && SendsTo(s.loop, num) && s.loop.r.err == None
    ensures var next := ClientStep(g)(s, Take(num, false)).0;
            next.loop == Running && next.st == s.st && next.rc == s.rc[num := s.rc[num].(body := [s.loop.r.data])]
  {
    var box := s.rc[num];
    assert Tail(box.body) + [s.loop.r.data] == [s.loop.r.data];
  }

  /** Two callers wait for replies of one frame each; the first reply arrives twice,
      and the loop blocks. Then the first caller receives: the loop reads on, and the
      second reply reaches its own box. */
  lemma TakeServesOthers(g: Geometry, ms: Traffic, s: ConnState, a: nat, b: nat)
    requires WellFormed(g, ms) && a in ms && b in ms && a != b && s.st.Keys !! ms.Keys && s.loop == Running
    requires Width(g, ms[a]) == 1 && ms[a].outcome.Success? && Width(g, ms[b]) == 1 && ms[b].outcome.Success?
    requires Sane(s) && a in s.rc && s.rc[a] == EMPTY_BOX && b in s.rc && s.rc[b] == EMPTY_BOX
    ensures var f, f' := FrameOf(g, ms, Token(a, 0)), FrameOf(g, ms, Token(b, 0));
            var end := After(ClientStep(g), s, [Arrive(f), Arrive(f)] + [Take(a, false)] + [Arrive(f')]);
            && end.loop == Running && a in end.rc && b in end.rc
            && end.rc[a] == RecvChan([ms[a].outcome.data], []) && end.rc[b] == RecvChan([ms[b].outcome.data], [])
  {
    var f, f' := FrameOf(g, ms, Token(a, 0)), FrameOf(g, ms, Token(b, 0));
    var r, r' := Expected(g, ms[a]), Expected(g, ms[b]);
    assert a in ms.Keys && a !in s.st && ms[a].num == a > 0 && b in ms.Keys && b !in s.st && ms[b].num == b > 0;
    OneFrame(g, ms, s.st, a);
    OneFrame(g, ms, s.st, b);
    hide Parse, FrameOf, Feed, WellFormed, Width;
    TwiceThenTake(g, s, f, r, f', r');
  }

  lemma TwiceThenTake(g: Geometry, s: ConnState, f: Bytes, r: Resp, f': Bytes, r': Resp)
    requires s.loop == Running && Sane(s)
    requires Feed(s.st, Parse(g, f)) == (s.st, r) && Feed(s.st, Parse(g, f')) == (s.st, r')
    requires r.Resp? && r.num > 0 && r.err == None && r.num in s.rc && s.rc[r.num] == EMPTY_BOX
    requires r'.Resp? && r'.num > 0 && r'.err == None && r'.num in s.rc && s.rc[r'.num] == EMPTY_BOX && r.num != r'.num
    ensures var end := After(ClientStep(g), s, [Arrive(f), Arrive(f)] + [Take(r.num, false)] + [Arrive(f')]);
            && end.loop == Running && r.num in end.rc && r'.num in end.rc
            && end.rc[r.num] == RecvChan([r.data], []) && end.rc[r'.num] == RecvChan([r'.data], [])
  {
    hide Parse, Feed, Taken, Sane, Receive;
    var twice := [Arrive(f), Arrive(f)];
    RepeatBlocks(g, s, f, r);
    BlockedMeansFull(g, s, twice);
    TakeFrees(g, After(ClientStep(g), s, twice), r.num);
    assert [] + [r.data] == [r.data];
    var rc := s.rc[r.num := RecvChan([r.data], [])];
    assert Route(s.rc, r) == rc;
    assert rc[r.num := rc[r.num].(body := [r.data])] == rc;
    assert ClientStep(g)(After(ClientStep(g), s, twice), Take(r.num, false)).0 == ConnState(s.st, rc, Running);
    RunSnoc(ClientStep(g), s, twice, Take(r.num, false));
    RunSnoc(ClientStep(g), s, twice + [Take(r.num, false)], Arrive(f'));
    ReceiveEmpty(ConnState(s.st, rc, Running), Parse(g, f'), r');
  }

  /** A reply to an empty box. */
  lemma ReceiveEmpty(s: ConnState, p: Parsed, r: Resp)
    requires s.loop == Running && Feed(s.st, p) == (s.st, r)
    requires r.Resp? && r.num > 0 && r.err == None && r.num in s.rc && s.rc[r.num] == EMPTY_BOX
    ensures Receive(s, p).0 == ConnState(s.st, s.rc[r.num := RecvChan([r.data], [])], Running)
  {
    assert [] + [r.data] == [r.data];
  }

  /** The end of a wait is a receive, unless the caller gives up, and the deletion of
      its box. */
  lemma WaitOverIsEvents(g: Geometry, s: ConnState, num: nat, w: Waited)
    ensures WaitOver(s, num, w) ==
            After(ClientStep(g), s, (if w == GaveUp then [] else [Take(num, w.GotError?)]) + [Close(num)])
    ensures num !in WaitOver(s, num, w).rc
  {
    assert num !in WaitOver(s, num, w).rc;
    hide Taken, Closed;
    if w == GaveUp {
      assert [] + [Close(num)] == [Close(num)];
      RunSnoc(ClientStep(g), s, [], Close(num));
    } else {
      assert [Take(num, w.GotError?)] + [Close(num)] == [Take(num, w.GotError?), Close(num)];
      RunTwice(ClientStep(g), s, Take(num, w.GotError?), Close(num));
    }
  }
}
