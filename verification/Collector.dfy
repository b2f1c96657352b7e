/** What `ParseResp` does to honest traffic. Any loss, repetition, reordering and
    interleaving of the frames of well-formed messages drives the reassembler
    exactly like a coupon collector: per event id, the set of slots that arrived
    since the id was last delivered. */
module Collector {
  import opened Common
  import opened Wire
  import opened Reassembler
  import opened Runs

  /** A message on the wire: a request, or a handler's reply. */
  datatype Message = Message(num: nat, fid: nat, outcome: Outcome)

  /** The messages of a run, by event id. */
  type Traffic = map<nat, Message>

  /** Frame `slot` of message `num`. */
  datatype Token = Token(num: nat, slot: nat)

  ghost predicate WellFormed(g: Geometry, ms: Traffic) {
    && forall k :: k in ms ==>
         && ms[k].num == k && 1 <= k < MAX_UUID && 1 <= ms[k].fid < MAX_FUNC
         && Width(g, ms[k]) < MAX_BUCK
  }

  /** The slices of a message; an error reply is never sliced. */
  ghost function Pieces(g: Geometry, m: Message): (p: seq<Bytes>)
    ensures |p| > 0
  {
    match m.outcome
    case Success(data) => Chunks(g.bodySplit, data)
    case Failure(message) => [Cut(g, message)]
  }

  /** The number of frames of a message. */
  ghost function Width(g: Geometry, m: Message): nat
  {
    |Pieces(g, m)|
  }

  ghost function FramesOf(g: Geometry, m: Message): (f: seq<Bytes>)
    requires m.fid > 0
    ensures |f| == Width(g, m)
  {
    RspFrames(g, m.outcome, m.num, m.fid)
  }

  ghost predicate Honest(g: Geometry, ms: Traffic, t: Token)
  {
    t.num in ms && t.slot < Width(g, ms[t.num])
  }

  ghost predicate AllHonest(g: Geometry, ms: Traffic, toks: seq<Token>)
  {
    forall i :: 0 <= i < |toks| ==> Honest(g, ms, toks[i])
  }

  ghost function FrameOf(g: Geometry, ms: Traffic, t: Token): Bytes
    requires WellFormed(g, ms) && Honest(g, ms, t)
  {
    FramesOf(g, ms[t.num])[t.slot]
  }

  ghost function Frames(g: Geometry, ms: Traffic, toks: seq<Token>): (f: seq<Bytes>)
    requires WellFormed(g, ms) && AllHonest(g, ms, toks)
    ensures |f| == |toks|
  {
    seq(|toks|, i requires 0 <= i < |toks| => FrameOf(g, ms, toks[i]))
  }

  /** What `ParseResp` returns when message m is complete: the payload under its
      id, or, for an error reply, the bare error without an id. */
  ghost function Expected(g: Geometry, m: Message): Resp {
    match m.outcome
    case Success(data) => Resp(m.num, m.fid, data, None)
    case Failure(message) => Resp(0, 0, [], Some(Remote(Cut(g, message))))
  }

  // ---------------------------------------------------------------------------
  // Runs of the reassembler

  ghost function ParseAll(g: Geometry, frames: seq<Bytes>): (ps: seq<Parsed>)
    ensures |ps| == |frames|
  {
    seq(|frames|, i requires 0 <= i < |frames| => Parse(g, frames[i]))
  }

  /** What `parse` makes of an honest frame (see `HonestParse`). */
  ghost function Reading(g: Geometry, ms: Traffic, t: Token): Parsed
    requires Honest(g, ms, t)
  {
    var m := ms[t.num];
    match m.outcome
    case Failure(message) => Failed(m.num, m.fid, Cut(g, message))
    case Success(_) => Body(m.num, m.fid, Width(g, m), t.slot + 1, Pieces(g, m)[t.slot])
  }

  ghost function Readings(g: Geometry, ms: Traffic, toks: seq<Token>): (ps: seq<Parsed>)
    requires AllHonest(g, ms, toks)
    ensures |ps| == |toks|
  {
    seq(|toks|, i requires 0 <= i < |toks| => Reading(g, ms, toks[i]))
  }

  lemma HonestParse(g: Geometry, ms: Traffic, toks: seq<Token>)
    requires WellFormed(g, ms) && AllHonest(g, ms, toks)
    ensures ParseAll(g, Frames(g, ms, toks)) == Readings(g, ms, toks)
  {
    forall i | 0 <= i < |toks|
      ensures Parse(g, FrameOf(g, ms, toks[i])) == Reading(g, ms, toks[i])
    {
      var m := ms[toks[i].num];
      match m.outcome
      case Failure(message) => FailureRoundTrip(g, message, m.num, m.fid);
      case Success(data) =>
        ChunkCount(g.bodySplit, data);
        ParseReqFrame(g, data, m.num, m.fid, toks[i].slot);
    }
  }

  // ---------------------------------------------------------------------------
  // The coupon collector

  type Pending = map<nat, set<nat>>

  ghost function All(n: nat): (s: set<nat>)
    ensures |s| == n
    ensures forall i :: i in s <==> 0 <= i < n
  {
    if n == 0 then {} else All(n - 1) + {n - 1}
  }

  ghost function Got(pend: Pending, num: nat): set<nat> {
    if num in pend then pend[num] else {}
  }

  /** One arrival: the last missing slot of a message delivers it. */
  ghost function Collect(g: Geometry, ms: Traffic, pend: Pending, t: Token): (Pending, Resp) {
    if t.num !in ms then (pend, NOTHING)
    else
      var got := Got(pend, t.num) + {t.slot};
      if got == All(Width(g, ms[t.num])) then (pend - {t.num}, Expected(g, ms[t.num]))
      else (pend[t.num := got], NOTHING)
  }

  ghost function Collecting(g: Geometry, ms: Traffic): (Pending, Token) -> (Pending, Resp) {
    (pend, t) => Collect(g, ms, pend, t)
  }

  lemma {:induction false} SubsetSize<T>(a: set<T>, b: set<T>)
    requires a <= b
    ensures |a| <= |b|
    ensures |a| == |b| <==> a == b
    decreases a
  {
    if a != {} {
      var x :| x in a;
      SubsetSize(a - {x}, b - {x});
      assert a == (a - {x}) + {x} && b == (b - {x}) + {x};
    } else if b != {} {
      var x :| x in b;
    }
  }

  // ---------------------------------------------------------------------------
  // The reassembler refines the collector

  /** A partial message: slot i holds slice i once that arrived and is empty
      before, and `recv` counts the slots that arrived. */
  ghost predicate LinkHolds(pieces: seq<Bytes>, fid: nat, link: Link, got: set<nat>) {
    && link.funcid == fid && link.buck == |link.body| == |pieces|
    && got <= All(|pieces|) && got != {} && got != All(|pieces|)
    && link.recv == |got|
    && forall i :: 0 <= i < |pieces| ==> link.body[i] == if i in got then pieces[i] else []
  }

  /** The table has an entry for m exactly when some but not all of m arrived. */
  ghost predicate EntryHolds(g: Geometry, m: Message, entry: Option<Link>, got: set<nat>)
  {
    if got == {} then entry == None else entry.Some? && LinkHolds(Pieces(g, m), m.fid, entry.value, got)
  }

  ghost function Entry(st: Partials, k: nat): Option<Link> {
    if k in st then Some(st[k]) else None
  }

  /** The table holds exactly the pending messages of `ms`. */
  ghost predicate Tracks(g: Geometry, ms: Traffic, st: Partials, pend: Pending)
  {
    forall k :: k in ms ==> EntryHolds(g, ms[k], Entry(st, k), Got(pend, k))
  }

  /** Entries of other ids are left alone. */
  ghost predicate SameElsewhere(ids: set<nat>, st: Partials, st': Partials) {
    forall k :: k !in ids ==> Entry(st, k) == Entry(st', k)
  }

  lemma PiecesOfSuccess(g: Geometry, m: Message)
    requires m.outcome.Success?
    ensures Flatten(Pieces(g, m)) == m.outcome.data
    ensures Width(g, m) == 1 ==> Pieces(g, m)[0] == m.outcome.data
    ensures Width(g, m) > 1 ==> forall i :: 0 <= i < Width(g, m) ==> Pieces(g, m)[i] != []
  {
    ChunksFlatten(g.bodySplit, m.outcome.data);
    if Width(g, m) > 1 {
      forall i | 0 <= i < Width(g, m) ensures Pieces(g, m)[i] != [] {
        ChunkAt(g.bodySplit, m.outcome.data, i);
      }
    }
  }

  /** A repeated slice is ignored. */
  lemma FeedRepeated(pieces: seq<Bytes>, num: nat, fid: nat, st: Partials, got: set<nat>, slot: nat)
    requires num in st && LinkHolds(pieces, fid, st[num], got)
    requires slot < |pieces| && slot in got && pieces[slot] != []
    ensures FeedKnown(st, num, fid, |pieces|, slot + 1, pieces[slot]) == (st, NOTHING)
  {
  }

  lemma FeedMissing(pieces: seq<Bytes>, num: nat, fid: nat, st: Partials, got: set<nat>, slot: nat)
    requires num in st && LinkHolds(pieces, fid, st[num], got)
    requires slot < |pieces| < MAX_BUCK && slot !in got
    ensures var link' := Filled(st[num], slot, pieces[slot]);
            FeedKnown(st, num, fid, |pieces|, slot + 1, pieces[slot])
            == if link'.recv < link'.buck || HasGap(link'.body) then (st[num := link'], NOTHING)
               else (st - {num}, Resp(num, fid, Flatten(link'.body), None))
  {
    SubsetSize(got, All(|pieces|));
  }

  /** A further slice is counted; the counter is far from wrapping around. */
  lemma FilledCounts(pieces: seq<Bytes>, fid: nat, link: Link, got: set<nat>, slot: nat)
    requires LinkHolds(pieces, fid, link, got)
    requires slot < |pieces| < MAX_BUCK && slot !in got
    ensures Filled(link, slot, pieces[slot]).recv == |got + {slot}| <= |pieces|
    ensures |got + {slot}| == |pieces| <==> got + {slot} == All(|pieces|)
  {
    SubsetSize(got + {slot}, All(|pieces|));
  }

  /** The last missing slice completes the message. */
  lemma FilledComplete(pieces: seq<Bytes>, fid: nat, link: Link, got: set<nat>, slot: nat)
    requires LinkHolds(pieces, fid, link, got)
    requires slot < |pieces| < MAX_BUCK && slot !in got && got + {slot} == All(|pieces|)
    requires forall i :: 0 <= i < |pieces| ==> pieces[i] != []
    ensures var link' := Filled(link, slot, pieces[slot]);
            link'.body == pieces && !HasGap(link'.body) && link'.recv == link'.buck
  {
    FilledCounts(pieces, fid, link, got, slot);
    var body := Filled(link, slot, pieces[slot]).body;
    forall i | 0 <= i < |pieces| ensures body[i] == pieces[i] {
      assert i in got + {slot};
    }
  }

  /** Any other slice leaves a gap. */
  lemma FilledPartly(pieces: seq<Bytes>, fid: nat, link: Link, got: set<nat>, slot: nat)
    requires LinkHolds(pieces, fid, link, got)
    requires slot < |pieces| < MAX_BUCK && slot !in got && got + {slot} != All(|pieces|)
    ensures var link' := Filled(link, slot, pieces[slot]);
            LinkHolds(pieces, fid, link', got + {slot}) && link'.recv < link'.buck
  {
    FilledCounts(pieces, fid, link, got, slot);
  }

  /** What a step has to achieve for message m and the slices received so far. */
  ghost predicate StepHolds(g: Geometry, m: Message, st: Partials, got: set<nat>, next: (Partials, Resp))
  {
    && (forall k :: k != m.num ==> Entry(next.0, k) == Entry(st, k))
    && (if got == All(Width(g, m)) then Entry(next.0, m.num) == None && next.1 == Expected(g, m)
        else next.1 == NOTHING && EntryHolds(g, m, Entry(next.0, m.num), got))
  }

  /** A slice for an id that has a partial message. */
  lemma RefineRepeated(g: Geometry, m: Message, st: Partials, got: set<nat>, slot: nat)
    requires slot in got && slot < Width(g, m) && Pieces(g, m)[slot] != []
    requires m.num in st && LinkHolds(Pieces(g, m), m.fid, st[m.num], got)
    ensures StepHolds(g, m, st, got, FeedKnown(st, m.num, m.fid, Width(g, m), slot + 1, Pieces(g, m)[slot]))
  {
    FeedRepeated(Pieces(g, m), m.num, m.fid, st, got, slot);
  }

  /** The last missing slice delivers the joined slices. */
  lemma FeedLast(pieces: seq<Bytes>, num: nat, fid: nat, st: Partials, got: set<nat>, slot: nat)
    requires num in st && LinkHolds(pieces, fid, st[num], got)
    requires slot < |pieces| < MAX_BUCK && slot !in got && got + {slot} == All(|pieces|)
    requires forall i :: 0 <= i < |pieces| ==> pieces[i] != []
    ensures FeedKnown(st, num, fid, |pieces|, slot + 1, pieces[slot])
         == (st - {num}, Resp(num, fid, Flatten(pieces), None))
  {
    FeedMissing(pieces, num, fid, st, got, slot);
    FilledComplete(pieces, fid, st[num], got, slot);
  }

  lemma DeliveredHolds(g: Geometry, m: Message, st: Partials)
    ensures StepHolds(g, m, st, All(Width(g, m)), (st - {m.num}, Expected(g, m)))
  {
  }

  lemma RefineLast(g: Geometry, m: Message, st: Partials, got: set<nat>, slot: nat)
    requires m.outcome.Success? && 1 < Width(g, m) < MAX_BUCK && slot < Width(g, m) && slot !in got
    requires m.num in st && LinkHolds(Pieces(g, m), m.fid, st[m.num], got) && got + {slot} == All(Width(g, m))
    ensures StepHolds(g, m, st, got + {slot}, FeedKnown(st, m.num, m.fid, Width(g, m), slot + 1, Pieces(g, m)[slot]))
  {
    PiecesOfSuccess(g, m);
    FeedLast(Pieces(g, m), m.num, m.fid, st, got, slot);
    DeliveredHolds(g, m, st);
  }

  lemma RefineMissing(g: Geometry, m: Message, st: Partials, got: set<nat>, slot: nat)
    requires m.outcome.Success? && 1 < Width(g, m) < MAX_BUCK && slot < Width(g, m) && slot !in got
    requires m.num in st && LinkHolds(Pieces(g, m), m.fid, st[m.num], got) && got + {slot} != All(Width(g, m))
    ensures StepHolds(g, m, st, got + {slot}, FeedKnown(st, m.num, m.fid, Width(g, m), slot + 1, Pieces(g, m)[slot]))
  {
    FeedMissing(Pieces(g, m), m.num, m.fid, st, got, slot);
    FilledPartly(Pieces(g, m), m.fid, st[m.num], got, slot);
  }

  lemma RefineLater(g: Geometry, m: Message, st: Partials, got: set<nat>, slot: nat)
    requires m.outcome.Success? && 1 < Width(g, m) < MAX_BUCK && slot < Width(g, m)
    requires m.num in st && LinkHolds(Pieces(g, m), m.fid, st[m.num], got)
    ensures StepHolds(g, m, st, got + {slot}, FeedKnown(st, m.num, m.fid, Width(g, m), slot + 1, Pieces(g, m)[slot]))
  {
    if slot in got {
      PiecesOfSuccess(g, m);
      assert got + {slot} == got;
      RefineRepeated(g, m, st, got, slot);
    } else if got + {slot} == All(Width(g, m)) {
      RefineLast(g, m, st, got, slot);
    } else {
      RefineMissing(g, m, st, got, slot);
    }
  }

  /** The first slice of a message opens an entry. */
  lemma RefineFirst(g: Geometry, m: Message, st: Partials, slot: nat)
    requires m.outcome.Success? && Width(g, m) > 1 && slot < Width(g, m) && m.num !in st
    ensures StepHolds(g, m, st, {slot}, Feed(st, Body(m.num, m.fid, Width(g, m), slot + 1, Pieces(g, m)[slot])))
  {
    assert |{slot}| == 1;
  }

  /** A message that fits one frame is delivered at once and leaves no entry. */
  lemma RefineWhole(g: Geometry, m: Message, st: Partials, p: Parsed)
    requires Width(g, m) == 1 && m.num !in st
    requires p == if m.outcome.Failure? then Failed(m.num, m.fid, Cut(g, m.outcome.message))
                  else Body(m.num, m.fid, 1, 1, Pieces(g, m)[0])
    ensures StepHolds(g, m, st, {0}, Feed(st, p))
  {
    if m.outcome.Success? {
      PiecesOfSuccess(g, m);
    }
    assert All(1) == {0};
  }

  /** Message m's own entry, for one frame of m. */
  lemma RefineOne(g: Geometry, m: Message, st: Partials, got: set<nat>, slot: nat, p: Parsed)
    requires Width(g, m) < MAX_BUCK && slot < Width(g, m)
    requires EntryHolds(g, m, Entry(st, m.num), got)
    requires p == if m.outcome.Failure? then Failed(m.num, m.fid, Cut(g, m.outcome.message))
                  else Body(m.num, m.fid, Width(g, m), slot + 1, Pieces(g, m)[slot])
    ensures StepHolds(g, m, st, got + {slot}, Feed(st, p))
  {
    if Width(g, m) == 1 {
      assert All(1) == {0};
      assert got + {slot} == {0};
      RefineWhole(g, m, st, p);
    } else if got == {} {
      assert got + {slot} == {slot};
      RefineFirst(g, m, st, slot);
    } else {
      RefineLater(g, m, st, got, slot);
    }
  }

  lemma CollectEntries(g: Geometry, ms: Traffic, pend: Pending, t: Token, k: nat)
    requires Honest(g, ms, t)
    ensures Got(Collect(g, ms, pend, t).0, k) ==
            if k != t.num then Got(pend, k)
            else if Got(pend, k) + {t.slot} == All(Width(g, ms[k])) then {}
            else Got(pend, k) + {t.slot}
  {
  }

  lemma TracksStep(g: Geometry, ms: Traffic, st: Partials, pend: Pending, t: Token, next: (Partials, Resp))
    requires Honest(g, ms, t) && ms[t.num].num == t.num && Tracks(g, ms, st, pend)
    requires StepHolds(g, ms[t.num], st, Got(pend, t.num) + {t.slot}, next)
    ensures Tracks(g, ms, next.0, Collect(g, ms, pend, t).0)
    ensures SameElsewhere(ms.Keys, st, next.0)
  {
    forall k | k in ms ensures EntryHolds(g, ms[k], Entry(next.0, k), Got(Collect(g, ms, pend, t).0, k)) {
      CollectEntries(g, ms, pend, t, k);
      assert EntryHolds(g, ms[k], Entry(st, k), Got(pend, k));
    }
  }

  /** One `ParseResp` call on an honest frame is one collector step. */
  lemma RefineStep(g: Geometry, ms: Traffic, st: Partials, pend: Pending, t: Token, next: (Partials, Resp))
    requires WellFormed(g, ms) && Honest(g, ms, t) && Tracks(g, ms, st, pend)
    requires next == Feed(st, Reading(g, ms, t))
    ensures next.1 == Collect(g, ms, pend, t).1
    ensures Tracks(g, ms, next.0, Collect(g, ms, pend, t).0)
    ensures SameElsewhere(ms.Keys, st, next.0)
  {
    RefineOne(g, ms[t.num], st, Got(pend, t.num), t.slot, Reading(g, ms, t));
    TracksStep(g, ms, st, pend, t, next);
  }

  /** The table of a run that started in `st0`, against the collector. */
  ghost function Related(g: Geometry, ms: Traffic, st0: Partials): (Partials, Pending) -> bool {
    (st, pend) => Tracks(g, ms, st, pend) && SameElsewhere(ms.Keys, st0, st)
  }

  lemma RelatedStep(g: Geometry, ms: Traffic, st0: Partials, toks: seq<Token>)
    requires WellFormed(g, ms) && AllHonest(g, ms, toks)
    ensures var ps, f, h, rel := Readings(g, ms, toks), Feed, Collecting(g, ms), Related(g, ms, st0);
            forall st, pend, i {:trigger f(st, ps[i]), h(pend, toks[i])} :: 0 <= i < |ps| && rel(st, pend) ==>
              f(st, ps[i]).1 == h(pend, toks[i]).1 && rel(f(st, ps[i]).0, h(pend, toks[i]).0)
  {
    var ps, f, h, rel := Readings(g, ms, toks), Feed, Collecting(g, ms), Related(g, ms, st0);
    forall st, pend, i {:trigger f(st, ps[i]), h(pend, toks[i])} | 0 <= i < |ps| && rel(st, pend)
      ensures f(st, ps[i]).1 == h(pend, toks[i]).1 && rel(f(st, ps[i]).0, h(pend, toks[i]).0)
    {
      RefineStep(g, ms, st, pend, toks[i], Feed(st, ps[i]));
    }
  }

  lemma NothingPending(g: Geometry, ms: Traffic, st: Partials)
    requires st.Keys !! ms.Keys
    ensures Related(g, ms, st)(st, map[])
  {
    var empty: Pending := map[];
    forall k | k in ms ensures EntryHolds(g, ms[k], Entry(st, k), Got(empty, k)) {
      assert k in ms.Keys && k !in st.Keys;
    }
    assert Tracks(g, ms, st, empty) && SameElsewhere(ms.Keys, st, st);
  }

  /** Under any loss, repetition and reordering of honest frames, and whatever
      other ids the table holds, the table tracks the collector and every call
      returns what the collector returns. */
  lemma RefineRun(g: Geometry, ms: Traffic, st: Partials, toks: seq<Token>)
    requires WellFormed(g, ms) && AllHonest(g, ms, toks) && st.Keys !! ms.Keys
    ensures Tracks(g, ms, After(Feed, st, Readings(g, ms, toks)), After(Collecting(g, ms), map[], toks))
    ensures SameElsewhere(ms.Keys, st, After(Feed, st, Readings(g, ms, toks)))
    ensures forall t :: 0 <= t < |toks| ==>
              OutAt(Feed, st, Readings(g, ms, toks), t) == OutAt(Collecting(g, ms), map[], toks, t)
  {
    NothingPending(g, ms, st);
    RelatedStep(g, ms, st, toks);
    Simulation(Feed, Collecting(g, ms), Related(g, ms, st), st, map[], Readings(g, ms, toks), toks);
  }
}
