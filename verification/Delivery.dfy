/** What a caller of `ParseResp` sees over a whole run of honest frames: nothing
    but sent messages ever, each message exactly once when no frame repeats, and
    exactly how often when frames do repeat. */
module Delivery {
  import opened Wire
  import opened Reassembler
  import opened Runs
  import opened Collector

  /** The slots of message `num` among `toks`. */
  ghost function Seen(toks: seq<Token>, num: nat): set<nat> {
    set i | 0 <= i < |toks| && toks[i].num == num :: toks[i].slot
  }

  lemma SeenSnoc(toks: seq<Token>, t: Token, num: nat)
    ensures Seen(toks + [t], num) == if t.num == num then Seen(toks, num) + {t.slot} else Seen(toks, num)
  {
    var all := toks + [t];
    assert all[|toks|] == t;
    forall s | s in Seen(toks, num) ensures s in Seen(all, num) {
      var i :| 0 <= i < |toks| && toks[i].num == num && toks[i].slot == s;
      assert all[i].num == num;
    }
  }

  ghost predicate Complete(g: Geometry, ms: Traffic, toks: seq<Token>, num: nat)
    requires num in ms
  {
    Seen(toks, num) == All(Width(g, ms[num]))
  }

  ghost predicate Distinct<T>(s: seq<T>) {
    forall i, j :: 0 <= i < j < |s| ==> s[i] != s[j]
  }

  /** All frames of one message, in order. */
  ghost function Whole(num: nat, w: nat): (toks: seq<Token>)
    ensures |toks| == w
  {
    seq(w, i requires 0 <= i < w => Token(num, i))
  }

  /** Frames may be lost, but none arrives twice. */
  ghost predicate OnceEach(g: Geometry, ms: Traffic, toks: seq<Token>) {
    AllHonest(g, ms, toks) && Distinct(toks)
  }

  lemma WholeIsComplete(g: Geometry, ms: Traffic, num: nat)
    requires num in ms
    ensures var toks := Whole(num, Width(g, ms[num])); AllHonest(g, ms, toks) && Complete(g, ms, toks, num)
  {
    var toks := Whole(num, Width(g, ms[num]));
    forall i | i in All(|toks|) ensures i in Seen(toks, num) {
      assert toks[i].slot == i;
    }
  }

  // ---------------------------------------------------------------------------
  // Safety under loss, repetition and reordering

  /** The responses of a run of `ParseResp` from table `st` on the frames `toks`. */
  ghost function Response(g: Geometry, ms: Traffic, st: Partials, toks: seq<Token>, t: nat): Resp
    requires WellFormed(g, ms) && AllHonest(g, ms, toks) && t < |toks|
  {
    OutAt(Feed, st, ParseAll(g, Frames(g, ms, toks)), t)
  }

  ghost function Table(g: Geometry, ms: Traffic, st: Partials, toks: seq<Token>): Partials
    requires WellFormed(g, ms) && AllHonest(g, ms, toks)
  {
    After(Feed, st, ParseAll(g, Frames(g, ms, toks)))
  }

  /** Whatever is lost, repeated or reordered, `ParseResp` returns nothing or the
      very message whose frame just arrived, and every partial message holds the
      right slice in every filled slot, counts its filled slots, and is neither
      empty nor complete. */
  lemma Safety(g: Geometry, ms: Traffic, st: Partials, toks: seq<Token>, t: nat)
    requires WellFormed(g, ms) && AllHonest(g, ms, toks) && st.Keys !! ms.Keys && t < |toks|
    ensures Response(g, ms, st, toks, t) in {NOTHING, Expected(g, ms[toks[t].num])}
    ensures var end := Table(g, ms, st, toks);
            forall k :: k in ms && k in end ==>
              exists got :: LinkHolds(Pieces(g, ms[k]), ms[k].fid, end[k], got)
    ensures SameElsewhere(ms.Keys, st, Table(g, ms, st, toks))
  {
    hide LinkHolds, WellFormed, Parse, Feed;
    HonestParse(g, ms, toks);
    RefineRun(g, ms, st, toks);
    var end := Table(g, ms, st, toks);
    var pend := After(Collecting(g, ms), map[], toks);
    forall k | k in ms && k in end
      ensures exists got :: LinkHolds(Pieces(g, ms[k]), ms[k].fid, end[k], got)
    {
      assert EntryHolds(g, ms[k], Entry(end, k), Got(pend, k));
    }
  }

  // ---------------------------------------------------------------------------
  // Exactly once, when no frame repeats

  /** A frame that arrives for the first time fills a slot that was open. */
  lemma OpenSlot(g: Geometry, ms: Traffic, toks: seq<Token>, t: nat)
    requires AllHonest(g, ms, toks) && Distinct(toks) && t < |toks|
    ensures var (num, slot) := (toks[t].num, toks[t].slot);
            && slot !in Seen(toks[..t], num) && !Complete(g, ms, toks[..t], num)
            && Seen(toks[..t + 1], num) == Seen(toks[..t], num) + {slot}
            && forall k :: k != num ==> Seen(toks[..t + 1], k) == Seen(toks[..t], k)
  {
    assert toks[t].slot in All(Width(g, ms[toks[t].num]));
    assert toks[..t + 1] == toks[..t] + [toks[t]];
    forall k
      ensures Seen(toks[..t + 1], k) ==
              if toks[t].num == k then Seen(toks[..t], k) + {toks[t].slot} else Seen(toks[..t], k)
    {
      SeenSnoc(toks[..t], toks[t], k);
    }
  }

  ghost function Arrived(g: Geometry, ms: Traffic, toks: seq<Token>, num: nat): set<nat>
    requires num in ms
  {
    if Complete(g, ms, toks, num) then {} else Seen(toks, num)
  }

  /** Without repetition the collector's pending set is what arrived so far. */
  lemma {:induction false} PendingIsSeen(g: Geometry, ms: Traffic, toks: seq<Token>, t: nat, num: nat)
    requires AllHonest(g, ms, toks) && Distinct(toks) && num in ms && t <= |toks|
    ensures Got(After(Collecting(g, ms), map[], toks[..t]), num) == Arrived(g, ms, toks[..t], num)
  {
    hide Arrived, Collect, Distinct;
    if t == 0 {
      NothingArrived(g, ms, num);
    } else {
      PendingIsSeen(g, ms, toks, t - 1, num);
      assert toks[..t][..t - 1] == toks[..t - 1];
      ArrivedNext(g, ms, toks, t - 1, num);
      CollectEntries(g, ms, After(Collecting(g, ms), map[], toks[..t - 1]), toks[t - 1], num);
    }
  }

  lemma NothingArrived(g: Geometry, ms: Traffic, num: nat)
    requires num in ms
    ensures Arrived(g, ms, [], num) == {}
  {
    assert 0 in All(Width(g, ms[num]));
  }

  lemma ArrivedNext(g: Geometry, ms: Traffic, toks: seq<Token>, t: nat, num: nat)
    requires AllHonest(g, ms, toks) && Distinct(toks) && num in ms && t < |toks|
    ensures var got := Arrived(g, ms, toks[..t], num);
            Arrived(g, ms, toks[..t + 1], num) ==
            if num != toks[t].num then got
            else if got + {toks[t].slot} == All(Width(g, ms[num])) then {} else got + {toks[t].slot}
  {
    OpenSlot(g, ms, toks, t);
  }

  /** Lost frames allowed, repeated ones not: call t delivers its message exactly
      when all frames of that message have arrived by then. */
  lemma DeliveredOnLastArrival(g: Geometry, ms: Traffic, st: Partials, toks: seq<Token>, t: nat)
    requires WellFormed(g, ms) && AllHonest(g, ms, toks) && Distinct(toks) && st.Keys !! ms.Keys && t < |toks|
    ensures Response(g, ms, st, toks, t) ==
            if Complete(g, ms, toks[..t + 1], toks[t].num) then Expected(g, ms[toks[t].num]) else NOTHING
  {
    HonestParse(g, ms, toks);
    RefineRun(g, ms, st, toks);
    CollectedOnLastArrival(g, ms, toks, t);
  }

  lemma CollectedOnLastArrival(g: Geometry, ms: Traffic, toks: seq<Token>, t: nat)
    requires AllHonest(g, ms, toks) && Distinct(toks) && t < |toks|
    ensures OutAt(Collecting(g, ms), map[], toks, t) ==
            if Complete(g, ms, toks[..t + 1], toks[t].num) then Expected(g, ms[toks[t].num]) else NOTHING
  {
    OpenSlot(g, ms, toks, t);
    PendingIsSeen(g, ms, toks, t, toks[t].num);
  }

  /** `t` is where the last frame of message `num` arrives. */
  ghost predicate LastArrival(toks: seq<Token>, t: nat, num: nat) {
    t < |toks| && toks[t].num == num && forall u :: t < u < |toks| ==> toks[u].num != num
  }

  lemma SeenMonotone(toks: seq<Token>, t: nat, num: nat)
    requires t <= |toks|
    ensures Seen(toks[..t], num) <= Seen(toks, num)
  {
  }

  /** A message is complete from its last arrival on, and never before. */
  lemma CompleteFromLastArrival(g: Geometry, ms: Traffic, toks: seq<Token>, t: nat)
    requires AllHonest(g, ms, toks) && Distinct(toks) && t < |toks|
    requires Complete(g, ms, toks, toks[t].num)
    ensures Complete(g, ms, toks[..t + 1], toks[t].num) <==> LastArrival(toks, t, toks[t].num)
  {
    hide Complete, Distinct;
    if LastArrival(toks, t, toks[t].num) {
      SeenByThen(toks, toks[t].num, t + 1);
      CompleteIfSeen(g, ms, toks, toks[..t + 1], toks[t].num);
    } else {
      var u :| t < u < |toks| && toks[u].num == toks[t].num;
      CompleteNeedsAll(g, ms, toks, toks[t].num, t + 1, u);
    }
  }

  lemma CompleteIfSeen(g: Geometry, ms: Traffic, a: seq<Token>, b: seq<Token>, num: nat)
    requires num in ms && Seen(a, num) == Seen(b, num)
    ensures Complete(g, ms, a, num) <==> Complete(g, ms, b, num)
  {
  }

  /** While a frame of a message is still to come, the message is incomplete. */
  lemma CompleteNeedsAll(g: Geometry, ms: Traffic, toks: seq<Token>, num: nat, r: nat, i: nat)
    requires AllHonest(g, ms, toks) && Distinct(toks) && num in ms && r <= i < |toks| && toks[i].num == num
    ensures !Complete(g, ms, toks[..r], num)
  {
    hide Distinct;
    OpenSlot(g, ms, toks, i);
    assert toks[..i][..r] == toks[..r];
    SeenMonotone(toks[..i], r, num);
    assert toks[i].slot in All(Width(g, ms[num]));
  }

  lemma SeenByThen(toks: seq<Token>, num: nat, r: nat)
    requires r <= |toks| && forall i :: r <= i < |toks| ==> toks[i].num != num
    ensures Seen(toks, num) == Seen(toks[..r], num)
  {
    forall s | s in Seen(toks, num) ensures s in Seen(toks[..r], num) {
      var i :| 0 <= i < |toks| && toks[i].num == num && toks[i].slot == s;
      assert toks[..r][i] == toks[i];
    }
    SeenMonotone(toks, r, num);
  }

  lemma {:induction false} LastArrivalExists(toks: seq<Token>, num: nat) returns (t: nat)
    requires Seen(toks, num) != {}
    ensures LastArrival(toks, t, num)
  {
    var z := |toks| - 1;
    if toks[z].num == num {
      t := z;
    } else {
      assert toks == toks[..z] + [toks[z]];
      SeenSnoc(toks[..z], toks[z], num);
      t := LastArrivalExists(toks[..z], num);
    }
  }

  /** The reassembly theorem. Let every frame of every message of `ms` arrive
      once, in any order and interleaving, on any table that knows none of their
      ids. Each message is then delivered exactly once, with its exact id,
      function and bytes, precisely when the last of its frames arrives; every
      other call returns nothing; and the table ends as it began. */
  lemma ExactlyOnce(g: Geometry, ms: Traffic, st: Partials, toks: seq<Token>)
    requires WellFormed(g, ms) && AllHonest(g, ms, toks) && Distinct(toks) && st.Keys !! ms.Keys
    requires forall num :: num in ms ==> Complete(g, ms, toks, num)
    ensures forall t :: 0 <= t < |toks| ==>
              Response(g, ms, st, toks, t) ==
              if LastArrival(toks, t, toks[t].num) then Expected(g, ms[toks[t].num]) else NOTHING
    ensures forall num :: num in ms ==> exists t :: LastArrival(toks, t, num)
    ensures Table(g, ms, st, toks) == st
  {
    forall t | 0 <= t < |toks|
      ensures Response(g, ms, st, toks, t) ==
              if LastArrival(toks, t, toks[t].num) then Expected(g, ms[toks[t].num]) else NOTHING
    {
      DeliveredOnLastArrival(g, ms, st, toks, t);
      CompleteFromLastArrival(g, ms, toks, t);
    }
    forall num | num in ms ensures exists t :: LastArrival(toks, t, num) {
      assert 0 in Seen(toks, num);
      var t := LastArrivalExists(toks, num);
    }
    TableRestored(g, ms, st, toks);
  }

  lemma EntriesDetermine(st: Partials, st': Partials)
    requires forall k :: Entry(st, k) == Entry(st', k)
    ensures st == st'
  {
    forall k ensures (k in st <==> k in st') && (k in st ==> st[k] == st'[k]) {
      assert Entry(st, k) == Entry(st', k);
    }
  }

  /** The entry of an id after a run without repetition. */
  lemma EntryAtEnd(g: Geometry, ms: Traffic, st: Partials, toks: seq<Token>, k: nat)
    requires WellFormed(g, ms) && AllHonest(g, ms, toks) && Distinct(toks) && st.Keys !! ms.Keys
    ensures k in ms ==>
              EntryHolds(g, ms[k], Entry(Table(g, ms, st, toks), k), Arrived(g, ms, toks, k))
    ensures k !in ms ==> Entry(Table(g, ms, st, toks), k) == Entry(st, k)
  {
    HonestParse(g, ms, toks);
    RefineRun(g, ms, st, toks);
    if k in ms {
      assert toks[..|toks|] == toks;
      PendingIsSeen(g, ms, toks, |toks|, k);
    }
  }

  lemma TableRestored(g: Geometry, ms: Traffic, st: Partials, toks: seq<Token>)
    requires WellFormed(g, ms) && AllHonest(g, ms, toks) && Distinct(toks) && st.Keys !! ms.Keys
    requires forall num :: num in ms ==> Complete(g, ms, toks, num)
    ensures Table(g, ms, st, toks) == st
  {
    var end := Table(g, ms, st, toks);
    forall k ensures Entry(st, k) == Entry(end, k) {
      EntryAtEnd(g, ms, st, toks, k);
      if k in ms {
        assert k in ms.Keys;
      }
    }
    EntriesDetermine(st, end);
  }
}
