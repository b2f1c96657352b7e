/** Repeated frames. `ParseResp` forgets a message once it is delivered, so late
    copies open a new partial message. How often a message is delivered is still
    determined: as often as the run can be cut into stretches that each contain
    all frames of the message. */
module Repetition {
  import opened Wire
  import opened Reassembler
  import opened Runs
  import opened Collector
  import opened Delivery

  /** The slots of message `num` that arrive from time a up to time b. */
  ghost function Between(toks: seq<Token>, num: nat, a: nat, b: nat): set<nat>
    requires a <= b <= |toks|
  {
    set i | a <= i < b && toks[i].num == num :: toks[i].slot
  }

  /** The first t arrivals contain k complete stretches, one after the other. */
  ghost predicate Covers(w: nat, toks: seq<Token>, num: nat, t: nat, k: nat)
    requires t <= |toks|
    decreases k
  {
    k == 0 || exists s :: 0 <= s <= t && All(w) <= Between(toks, num, s, t) && Covers(w, toks, num, s, k - 1)
  }

  /** Completed rounds of the collector of one message, and its current round. */
  ghost function Rounds(w: nat, toks: seq<Token>, num: nat, t: nat): (nat, set<nat>)
    requires t <= |toks|
  {
    if t == 0 then (0, {})
    else
      var (k, got) := Rounds(w, toks, num, t - 1);
      if toks[t - 1].num != num then (k, got)
      else if got + {toks[t - 1].slot} == All(w) then (k + 1, {})
      else (k, got + {toks[t - 1].slot})
  }

  lemma BetweenStep(toks: seq<Token>, num: nat, a: nat, b: nat)
    requires a <= b < |toks|
    ensures Between(toks, num, a, b + 1) ==
            if toks[b].num == num then Between(toks, num, a, b) + {toks[b].slot} else Between(toks, num, a, b)
  {
  }

  /** The current round began at s. */
  lemma {:induction false} RoundStart(w: nat, toks: seq<Token>, num: nat, t: nat) returns (s: nat)
    requires t <= |toks|
    ensures s <= t && Between(toks, num, s, t) == Rounds(w, toks, num, t).1
    ensures Rounds(w, toks, num, s) == (Rounds(w, toks, num, t).0, {})
  {
    if t == 0 {
      s := 0;
    } else {
      s := RoundStart(w, toks, num, t - 1);
      BetweenStep(toks, num, s, t - 1);
      if Rounds(w, toks, num, t).0 != Rounds(w, toks, num, t - 1).0 {
        s := t;
      }
    }
  }

  lemma RoundsBoundedNext(w: nat, toks: seq<Token>, num: nat, t: nat)
    requires t < |toks| && w > 0 && (toks[t].num == num ==> toks[t].slot < w)
    requires Rounds(w, toks, num, t).1 < All(w)
    ensures Rounds(w, toks, num, t + 1).1 < All(w)
  {
    assert 0 in All(w);
  }

  lemma {:induction false} RoundsBounded(w: nat, toks: seq<Token>, num: nat, t: nat)
    requires t <= |toks| && w > 0
    requires forall i :: 0 <= i < |toks| && toks[i].num == num ==> toks[i].slot < w
    ensures Rounds(w, toks, num, t).1 < All(w)
  {
    if t == 0 {
      assert 0 in All(w);
    } else {
      RoundsBounded(w, toks, num, t - 1);
      RoundsBoundedNext(w, toks, num, t - 1);
    }
  }

  /** Either a round completes after s, or the round open at s just grows. */
  lemma {:induction false} RoundsExtend(w: nat, toks: seq<Token>, num: nat, s: nat, t: nat)
    requires s <= t <= |toks|
    ensures Rounds(w, toks, num, t).0 >= Rounds(w, toks, num, s).0
    ensures Rounds(w, toks, num, t).0 == Rounds(w, toks, num, s).0 ==>
              Rounds(w, toks, num, t).1 == Rounds(w, toks, num, s).1 + Between(toks, num, s, t)
    decreases t
  {
    if s < t {
      RoundsExtend(w, toks, num, s, t - 1);
      BetweenStep(toks, num, s, t - 1);
    }
  }

  lemma {:induction false} RoundsCover(w: nat, toks: seq<Token>, num: nat, t: nat, k: nat)
    requires t <= |toks| && w > 0 && k <= Rounds(w, toks, num, t).0
    ensures Covers(w, toks, num, t, k)
    decreases t
  {
    if k > 0 {
      if k <= Rounds(w, toks, num, t - 1).0 {
        RoundsCover(w, toks, num, t - 1, k);
        CoversLonger(w, toks, num, t - 1, t, k);
      } else {
        var s := RoundStart(w, toks, num, t - 1);
        RoundsCover(w, toks, num, s, k - 1);
        BetweenStep(toks, num, s, t - 1);
      }
    }
  }

  lemma CoversLonger(w: nat, toks: seq<Token>, num: nat, t: nat, t': nat, k: nat)
    requires t <= t' <= |toks| && Covers(w, toks, num, t, k)
    ensures Covers(w, toks, num, t', k)
  {
    if k > 0 {
      var s :| 0 <= s <= t && All(w) <= Between(toks, num, s, t) && Covers(w, toks, num, s, k - 1);
      assert Between(toks, num, s, t) <= Between(toks, num, s, t');
    }
  }

  /** A complete stretch after s completes a round. */
  lemma StretchCompletes(w: nat, toks: seq<Token>, num: nat, s: nat, t: nat)
    requires s <= t <= |toks| && w > 0 && All(w) <= Between(toks, num, s, t)
    requires forall i :: 0 <= i < |toks| && toks[i].num == num ==> toks[i].slot < w
    ensures Rounds(w, toks, num, t).0 > Rounds(w, toks, num, s).0
  {
    RoundsExtend(w, toks, num, s, t);
    RoundsBounded(w, toks, num, t);
  }

  lemma CoversSplit(w: nat, toks: seq<Token>, num: nat, t: nat, k: nat) returns (s: nat)
    requires t <= |toks| && k > 0 && Covers(w, toks, num, t, k)
    ensures s <= t && All(w) <= Between(toks, num, s, t) && Covers(w, toks, num, s, k - 1)
  {
    s :| 0 <= s <= t && All(w) <= Between(toks, num, s, t) && Covers(w, toks, num, s, k - 1);
  }

  lemma {:induction false} CoverRounds(w: nat, toks: seq<Token>, num: nat, t: nat, k: nat)
    requires t <= |toks| && w > 0 && Covers(w, toks, num, t, k)
    requires forall i :: 0 <= i < |toks| && toks[i].num == num ==> toks[i].slot < w
    ensures k <= Rounds(w, toks, num, t).0
    decreases k
  {
    hide Covers, Between, Rounds, All;
    if k > 0 {
      var s := CoversSplit(w, toks, num, t, k);
      CoverRounds(w, toks, num, s, k - 1);
      StretchCompletes(w, toks, num, s, t);
    }
  }

  // ---------------------------------------------------------------------------

  /** How many of `outs` deliver message `num`. */
  ghost function Times(outs: seq<Resp>, num: nat): nat {
    if outs == [] then 0
    else
      var z := |outs| - 1;
      Times(outs[..z], num) + if Delivers(outs[z], num) then 1 else 0
  }

  /** Everything the calls of a run return. */
  ghost function Responses(g: Geometry, ms: Traffic, st: Partials, toks: seq<Token>): seq<Resp>
    requires WellFormed(g, ms) && AllHonest(g, ms, toks)
  {
    seq(|toks|, t requires 0 <= t < |toks| => Response(g, ms, st, toks, t))
  }

  ghost predicate Delivers(r: Resp, num: nat) {
    r.Resp? && r.num == num
  }

  lemma CollectDelivers(g: Geometry, ms: Traffic, pend: Pending, t: Token, num: nat)
    requires WellFormed(g, ms) && t.num in ms && num in ms && ms[num].outcome.Success?
    ensures Delivers(Collect(g, ms, pend, t).1, num)
       <==> t.num == num && Got(pend, num) + {t.slot} == All(Width(g, ms[num]))
  {
    assert 1 <= num && ms[num].num == num && ms[t.num].num == t.num;
  }

  lemma TimesStep(outs: seq<Resp>, num: nat, t: nat)
    requires t < |outs|
    ensures Times(outs[..t + 1], num) == Times(outs[..t], num) + if Delivers(outs[t], num) then 1 else 0
  {
    assert outs[..t + 1][..t] == outs[..t];
  }

  /** The slots of message `num` pending after t arrivals. */
  ghost function PendingAt(g: Geometry, ms: Traffic, toks: seq<Token>, num: nat, t: nat): set<nat>
    requires t <= |toks|
  {
    Got(After(Collecting(g, ms), map[], toks[..t]), num)
  }

  /** One arrival, on the collector and on the rounds of one message. */
  lemma RoundStep(g: Geometry, ms: Traffic, toks: seq<Token>, num: nat, t: nat)
    requires WellFormed(g, ms) && AllHonest(g, ms, toks) && num in ms && ms[num].outcome.Success? && t < |toks|
    ensures var got := PendingAt(g, ms, toks, num, t);
            var full := toks[t].num == num && got + {toks[t].slot} == All(Width(g, ms[num]));
            && (Delivers(OutAt(Collecting(g, ms), map[], toks, t), num) <==> full)
            && PendingAt(g, ms, toks, num, t + 1)
               == if toks[t].num != num then got else if full then {} else got + {toks[t].slot}
  {
    var pend := After(Collecting(g, ms), map[], toks[..t]);
    assert toks[..t + 1][..t] == toks[..t];
    CollectDelivers(g, ms, pend, toks[t], num);
    CollectEntries(g, ms, pend, toks[t], num);
  }

  /** How many of the first t arrivals make the collector deliver message `num`. */
  ghost function Collected(g: Geometry, ms: Traffic, toks: seq<Token>, num: nat, t: nat): nat
    requires t <= |toks|
  {
    if t == 0 then 0
    else
      Collected(g, ms, toks, num, t - 1)
      + if Delivers(OutAt(Collecting(g, ms), map[], toks, t - 1), num) then 1 else 0
  }

  lemma RoundsNext(w: nat, toks: seq<Token>, num: nat, t: nat, got: set<nat>)
    requires t < |toks| && got == Rounds(w, toks, num, t).1
    ensures var full := toks[t].num == num && got + {toks[t].slot} == All(w);
            && Rounds(w, toks, num, t + 1).0 == Rounds(w, toks, num, t).0 + (if full then 1 else 0)
            && Rounds(w, toks, num, t + 1).1 ==
               if toks[t].num != num then got else if full then {} else got + {toks[t].slot}
  {
  }

  lemma CollectedNext(g: Geometry, ms: Traffic, toks: seq<Token>, num: nat, t: nat)
    requires t < |toks|
    ensures Collected(g, ms, toks, num, t + 1)
         == Collected(g, ms, toks, num, t) + if Delivers(OutAt(Collecting(g, ms), map[], toks, t), num) then 1 else 0
  {
  }

  /** The collector's deliveries and pending set of message `num` are its rounds. */
  ghost predicate InRounds(g: Geometry, ms: Traffic, toks: seq<Token>, num: nat, t: nat)
    requires num in ms && t <= |toks|
  {
    && Rounds(Width(g, ms[num]), toks, num, t).0 == Collected(g, ms, toks, num, t)
    && Rounds(Width(g, ms[num]), toks, num, t).1 == PendingAt(g, ms, toks, num, t)
  }

  lemma InRoundsFirst(g: Geometry, ms: Traffic, toks: seq<Token>, num: nat)
    requires num in ms
    ensures InRounds(g, ms, toks, num, 0)
  {
    assert toks[..0] == [];
    assert Got(map[], num) == {};
  }

  lemma InRoundsNext(g: Geometry, ms: Traffic, toks: seq<Token>, num: nat, t: nat)
    requires WellFormed(g, ms) && AllHonest(g, ms, toks) && num in ms && ms[num].outcome.Success? && t < |toks|
    requires InRounds(g, ms, toks, num, t)
    ensures InRounds(g, ms, toks, num, t + 1)
  {
    CollectedNext(g, ms, toks, num, t);
    RoundStep(g, ms, toks, num, t);
    RoundsNext(Width(g, ms[num]), toks, num, t, PendingAt(g, ms, toks, num, t));
  }

  lemma {:induction false} CollectedIsRounds(g: Geometry, ms: Traffic, toks: seq<Token>, num: nat, t: nat)
    requires WellFormed(g, ms) && AllHonest(g, ms, toks) && num in ms && ms[num].outcome.Success? && t <= |toks|
    ensures InRounds(g, ms, toks, num, t)
  {
    if t > 0 {
      CollectedIsRounds(g, ms, toks, num, t - 1);
      InRoundsNext(g, ms, toks, num, t - 1);
    } else {
      InRoundsFirst(g, ms, toks, num);
    }
  }

  lemma {:induction false} TimesIsCollected(
    g: Geometry, ms: Traffic, toks: seq<Token>, outs: seq<Resp>, num: nat, t: nat)
    requires |outs| == |toks| && t <= |toks|
    requires forall i :: 0 <= i < |toks| ==> outs[i] == OutAt(Collecting(g, ms), map[], toks, i)
    ensures Times(outs[..t], num) == Collected(g, ms, toks, num, t)
  {
    hide Delivers, OutAt;
    if t > 0 {
      TimesIsCollected(g, ms, toks, outs, num, t - 1);
      TimesStep(outs, num, t - 1);
    }
  }

  /** Under any loss, repetition and reordering: message `num` is delivered at
      least k times exactly when the run can be cut into k consecutive stretches
      that each contain every one of its frames. So one full set delivers it, and
      a second delivery takes a second full set. */
  lemma DeliveredAtLeast(g: Geometry, ms: Traffic, st: Partials, toks: seq<Token>, num: nat, k: nat)
    requires WellFormed(g, ms) && AllHonest(g, ms, toks) && st.Keys !! ms.Keys
    requires num in ms && ms[num].outcome.Success?
    ensures k <= Times(Responses(g, ms, st, toks), num) <==> Covers(Width(g, ms[num]), toks, num, |toks|, k)
  {
    var outs, w := Responses(g, ms, st, toks), Width(g, ms[num]);
    HonestParse(g, ms, toks);
    RefineRun(g, ms, st, toks);
    TimesIsCollected(g, ms, toks, outs, num, |toks|);
    CollectedIsRounds(g, ms, toks, num, |toks|);
    assert outs[..|toks|] == outs;
    if k <= Times(outs, num) {
      RoundsCover(w, toks, num, |toks|, k);
    }
    if Covers(w, toks, num, |toks|, k) {
      CoverRounds(w, toks, num, |toks|, k);
    }
  }

  lemma WholeCovers(num: nat, w: nat, before: seq<Token>, after: seq<Token>)
    ensures All(w) <= Between(before + Whole(num, w) + after, num, |before|, |before| + w)
  {
    var toks := before + Whole(num, w) + after;
    forall s | s in All(w) ensures s in Between(toks, num, |before|, |before| + w) {
      assert toks[|before| + s] == Token(num, s);
    }
  }

  lemma TwiceCovers(num: nat, w: nat)
    ensures Covers(w, Whole(num, w) + Whole(num, w), num, 2 * w, 2)
  {
    hide Between, Whole;
    var once := Whole(num, w);
    var toks := once + once;
    WholeCovers(num, w, [], once);
    WholeCovers(num, w, once, []);
    assert [] + once + once == toks && once + once + [] == toks;
    assert Covers(w, toks, num, 0, 0);
    assert Covers(w, toks, num, w, 1);
  }

  /** Any message whose frames all arrive a second time is delivered again. */
  lemma DeliveredTwice(g: Geometry, ms: Traffic, st: Partials, num: nat)
    requires WellFormed(g, ms) && st.Keys !! ms.Keys && num in ms && ms[num].outcome.Success?
    ensures var once := Whole(num, Width(g, ms[num]));
            AllHonest(g, ms, once + once) && Times(Responses(g, ms, st, once + once), num) >= 2
  {
    hide Covers, Responses, Times;
    var once := Whole(num, Width(g, ms[num]));
    TwiceCovers(num, Width(g, ms[num]));
    DeliveredAtLeast(g, ms, st, once + once, num, 2);
  }
}
