/** From the bytes on a TCP connection to the callers' boxes. */
module StreamDelivery {
  import opened Wire
  import opened Reassembler
  import opened Runs
  import opened Collector
  import opened Delivery
  import opened Client
  import opened Channels
  import opened Transport
  import opened Receivers

  /** The read loop is a client run in which only frames arrive. */
  lemma {:induction false} LoopIsRun(g: Geometry, s: ConnState, frames: seq<Bytes>)
    ensures After(ClientStep(g), s, ArriveAll(frames)) == After(Receive, s, ParseAll(g, frames))
    ensures forall t :: 0 <= t < |frames| ==>
              OutAt(ClientStep(g), s, ArriveAll(frames), t) == OutAt(Receive, s, ParseAll(g, frames), t)
    ensures Arrivals(ArriveAll(frames)) == frames
  {
    if frames != [] {
      var z := |frames| - 1;
      LoopIsRun(g, s, frames[..z]);
      hide Receive, Parse;
      assert ArriveAll(frames) == ArriveAll(frames[..z]) + [Arrive(frames[z])];
      assert frames == frames[..z] + [frames[z]];
      ParseAllSnoc(g, frames[..z], frames[z]);
      RunSnoc(ClientStep(g), s, ArriveAll(frames[..z]), Arrive(frames[z]));
      RunSnoc(Receive, s, ParseAll(g, frames[..z]), Parse(g, frames[z]));
      ArrivalsSnoc(ArriveAll(frames[..z]), Arrive(frames[z]));
    }
  }

  lemma FramesSized(g: Geometry, ms: Traffic, toks: seq<Token>)
    requires WellFormed(g, ms) && AllHonest(g, ms, toks)
    ensures forall f :: f in Frames(g, ms, toks) ==> |f| == g.totalSize
  {
    forall i | 0 <= i < |toks| ensures |Frames(g, ms, toks)[i]| == g.totalSize {
      var m := ms[toks[i].num];
      if m.outcome.Success? {
        FramesShape(g, m.outcome.data, m.num, m.fid);
        assert FramesOf(g, m)[toks[i].slot] in FramesOf(g, m);
      }
    }
  }

  /** What an open, empty box holds after the loop. */
  ghost predicate BoxFilled(g: Geometry, ms: Traffic, toks: seq<Token>, num: nat, before: Waiters, after: Waiters)
    requires num in ms
  {
    num in before && before[num] == EMPTY_BOX ==>
      && num in after
      && after[num] == RecvChan(
           if ms[num].outcome.Success? && Complete(g, ms, toks, num) then [ms[num].outcome.data] else [],
           [])
  }

  lemma OpenedFirst(g: Geometry, s: ConnState, num: nat)
    requires num in s.rc && s.rc[num] == EMPTY_BOX && s.loop == Running
    ensures After(ClientStep(g), s, [Open(num)]) == s && Arrivals([Open(num)]) == []
  {
    assert [Open(num)] == [] + [Open(num)];
    RunSnoc(ClientStep(g), s, [], Open(num));
    ArrivalsSnoc([], Open(num));
    assert Opened(s, num) == s;
  }

  lemma OpenedThen(g: Geometry, s: ConnState, evs: seq<ClientEvent>, ev: ClientEvent, first: ClientEvent)
    requires After(ClientStep(g), s, [first] + evs) == After(ClientStep(g), s, evs)
    requires Arrivals([first] + evs) == Arrivals(evs)
    ensures After(ClientStep(g), s, [first] + (evs + [ev])) == After(ClientStep(g), s, evs + [ev])
    ensures Arrivals([first] + (evs + [ev])) == Arrivals(evs + [ev])
  {
    hide ClientStep;
    assert [first] + (evs + [ev]) == [first] + evs + [ev];
    RunSnoc(ClientStep(g), s, [first] + evs, ev);
    RunSnoc(ClientStep(g), s, evs, ev);
    ArrivalsSnoc([first] + evs, ev);
    ArrivalsSnoc(evs, ev);
  }

  /** To a caller that waits already it makes no difference that its box was
      opened before the loop began. */
  lemma {:induction false} OpenedBeforehand(g: Geometry, s: ConnState, num: nat, evs: seq<ClientEvent>)
    requires num in s.rc && s.rc[num] == EMPTY_BOX && s.loop == Running
    ensures After(ClientStep(g), s, [Open(num)] + evs) == After(ClientStep(g), s, evs)
    ensures Arrivals([Open(num)] + evs) == Arrivals(evs)
  {
    if evs == [] {
      assert [Open(num)] + evs == [Open(num)];
      OpenedFirst(g, s, num);
    } else {
      var z := |evs| - 1;
      hide ClientStep, Arrivals;
      OpenedBeforehand(g, s, num, evs[..z]);
      OpenedThen(g, s, evs[..z], evs[z], Open(num));
      assert evs == evs[..z] + [evs[z]];
    }
  }

  lemma NothingYet(g: Geometry, ms: Traffic, num: nat)
    requires num in ms
    ensures !Complete(g, ms, [], num)
  {
    assert 0 in All(Width(g, ms[num]));
  }

  /** The box of a waiting caller after the loop. */
  lemma LoopFillsBox(g: Geometry, ms: Traffic, s: ConnState, toks: seq<Token>, num: nat)
    requires WellFormed(g, ms) && OnceEach(g, ms, toks) && s.st.Keys !! ms.Keys && num in ms
    requires Ready(ms, s.rc) && s.loop == Running
    ensures BoxFilled(g, ms, toks, num, s.rc, After(Receive, s, ParseAll(g, Frames(g, ms, toks))).rc)
  {
    if num in s.rc && s.rc[num] == EMPTY_BOX {
      hide Parse, FrameOf, ClientStep, Receive, Complete, WellFormed;
      var evs := ArriveAll(Frames(g, ms, toks));
      LoopIsRun(g, s, Frames(g, ms, toks));
      OpenedBeforehand(g, s, num, evs);
      WaitsFromTheStart(g, ms, s, evs, num, toks);
    }
  }

  /** A caller that opens its box before anything else happens. */
  lemma WaitsFromTheStart(
    g: Geometry, ms: Traffic, s: ConnState, evs: seq<ClientEvent>, num: nat, toks: seq<Token>)
    requires WellFormed(g, ms) && OnceEach(g, ms, toks) && s.st.Keys !! ms.Keys && num in ms
    requires Ready(ms, s.rc) && s.loop == Running
    requires Arrivals([Open(num)] + evs) == Frames(g, ms, toks) && forall ev :: ev in evs ==> !Touches(ev, num)
    ensures var rc := After(ClientStep(g), s, [Open(num)] + evs).rc;
            num in rc && rc[num] == RecvChan(
              if ms[num].outcome.Success? && Complete(g, ms, toks, num) then [ms[num].outcome.data] else [], [])
  {
    hide Parse, FrameOf, ClientStep, Complete, WellFormed, After;
    assert ([Open(num)] + evs)[..0] == [] && toks[..0] == [];
    CallerBox(g, ms, s, [Open(num)] + evs, num, 0, toks);
    NothingYet(g, ms, num);
  }

  /** Complete messages leave no entry behind, and other ids are left alone. */
  ghost predicate Tidy(g: Geometry, ms: Traffic, toks: seq<Token>, before: Partials, after: Partials) {
    && SameElsewhere(ms.Keys, before, after)
    && (forall k :: k in ms && Complete(g, ms, toks, k) ==> k !in after)
    && ((forall k :: k in ms ==> Complete(g, ms, toks, k)) ==> after == before)
  }

  lemma TableIsTidy(g: Geometry, ms: Traffic, st: Partials, toks: seq<Token>)
    requires WellFormed(g, ms) && OnceEach(g, ms, toks) && st.Keys !! ms.Keys
    ensures Tidy(g, ms, toks, st, Table(g, ms, st, toks))
  {
    forall k ensures k in ms && Complete(g, ms, toks, k) ==> k !in Table(g, ms, st, toks)
             ensures k !in ms ==> Entry(Table(g, ms, st, toks), k) == Entry(st, k) {
      EntryAtEnd(g, ms, st, toks, k);
    }
    if forall k :: k in ms ==> Complete(g, ms, toks, k) {
      TableRestored(g, ms, st, toks);
    }
  }

  /** The loop gets through, and is ready for more. */
  lemma LoopGoesOn(g: Geometry, ms: Traffic, s: ConnState, toks: seq<Token>)
    requires WellFormed(g, ms) && OnceEach(g, ms, toks) && s.st.Keys !! ms.Keys
    requires Ready(ms, s.rc) && s.loop == Running
    ensures var ps := ParseAll(g, Frames(g, ms, toks));
            && GetsThrough(s, ps)
            && After(Receive, s, ps).loop == Running && After(Receive, s, ps).st == Table(g, ms, s.st, toks)
  {
    var frames := Frames(g, ms, toks);
    LoopIsRun(g, s, frames);
    hide Parse, FrameOf, ClientStep, Receive, FreeStep;
    NeverBlocks(g, ms, s, ArriveAll(frames), toks);
    NeverPanics(g, ms, s, ArriveAll(frames), toks);
    ClientTable(g, Free(s), ArriveAll(frames));
  }

  /** A loop that handles frames of the replies `ms`, some perhaps lost or still
      under way, none twice, in any order, neither panics nor blocks, even if no
      caller reads its box; it fills the box of every waiting caller whose reply is
      complete (unless that reports an error) with that reply, leaves the other
      boxes alone, and is tidy. */
  lemma FramesDeliver(g: Geometry, ms: Traffic, s: ConnState, toks: seq<Token>)
    requires WellFormed(g, ms) && OnceEach(g, ms, toks) && s.st.Keys !! ms.Keys
    requires Ready(ms, s.rc) && s.loop == Running
    ensures var ps := ParseAll(g, Frames(g, ms, toks));
            var end := After(Receive, s, ps);
            && GetsThrough(s, ps) && end.loop == Running
            && Tidy(g, ms, toks, s.st, end.st)
            && forall num :: num in ms ==> BoxFilled(g, ms, toks, num, s.rc, end.rc)
  {
    hide Tidy, BoxFilled, GetsThrough, Parse, WellFormed;
    LoopGoesOn(g, ms, s, toks);
    TableIsTidy(g, ms, s.st, toks);
    forall num | num in ms
      ensures BoxFilled(g, ms, toks, num, s.rc, After(Receive, s, ParseAll(g, Frames(g, ms, toks))).rc)
    {
      LoopFillsBox(g, ms, s, toks, num);
    }
  }

  /** What `ReadRespTCP` makes of a connection that carries frames of the replies
      `ms` and breaks off anywhere, even inside a frame. With the contract of
      `ReadRespTCP` this holds for every chunking of the stream. */
  lemma StreamDelivers(g: Geometry, ms: Traffic, s: ConnState, toks: seq<Token>, tail: Bytes)
    requires WellFormed(g, ms) && OnceEach(g, ms, toks) && s.st.Keys !! ms.Keys && |tail| < g.totalSize
    requires Ready(ms, s.rc) && s.loop == Running
    ensures var ps := ParseAll(g, Deframe(g, Flatten(Frames(g, ms, toks)) + tail));
            var end := After(Receive, s, ps);
            && GetsThrough(s, ps) && end.loop == Running
            && Tidy(g, ms, toks, s.st, end.st)
            && forall num :: num in ms ==> BoxFilled(g, ms, toks, num, s.rc, end.rc)
  {
    FramesSized(g, ms, toks);
    hide Tidy, BoxFilled, GetsThrough, Parse, WellFormed;
    DeframeWritten(g, Frames(g, ms, toks), tail);
    FramesDeliver(g, ms, s, toks);
  }
}
