/** The election of a main watcher: "earliest timestamp wins", whatever order
    campaigns arrive in. */
module Campaign {
  import opened Common
  import opened Runs

  /** How long a campaign lasts, in milliseconds. */
  const WINDOW := 10_000

  datatype ElectCampReq = ElectCampReq(nodeId: string, begin: int, exprie: int)

  /** The value of one watcher's `WatchElect`. */
  datatype Election = Election(center: bool, nodeId: string, begin: int, exprie: int)

  datatype WatchNode = WatchNode(uuid: string, status: bool)

  function Adopted(req: ElectCampReq): Election {
    Election(false, req.nodeId, req.begin, req.exprie)
  }

  function OwnCampaign(self: string, now: int): ElectCampReq {
    ElectCampReq(self, now, now + WINDOW)
  }

  /** What reaches a watcher: another's campaign, or its own wish to stand. */
  datatype Event =
    | Hear(req: ElectCampReq, now: int)
    | Stand(self: string, now: int)

  /** One handler call; the output says whether a campaign was adopted. */
  function Step(e: Election, ev: Event): (Election, bool) {
    match ev
    case Hear(req, now) =>
      if e.exprie > now && e.begin < req.begin then (e, false) else (Adopted(req), true)
    case Stand(self, now) =>
      if e.exprie > now then (e, false) else (Adopted(OwnCampaign(self, now)), true)
  }

  class WatchElect {
    var center: bool
    var nodeId: string
    var begin: int
    var exprie: int

    ghost function View(): Election
      reads this
    {
      Election(center, nodeId, begin, exprie)
    }

    /** `Elect`: open a campaign unless one is running. The notice goes to the
        watchers known to be up. */
    method Elect(self: string, now: int, watch: seq<WatchNode>) returns (notice: Option<(ElectCampReq, seq<string>)>)
      modifies this
      ensures View() == Step(old(View()), Stand(self, now)).0
      ensures notice.Some? <==> Step(old(View()), Stand(self, now)).1
      ensures notice.Some? ==> notice.value == (OwnCampaign(self, now), UpNodes(watch))
    {
      if exprie > now {
        return None;
      }
      center, nodeId := false, self;
      begin, exprie := now, now + WINDOW;
      var uuids: seq<string> := [];
      for i := 0 to |watch|
        invariant uuids == UpNodes(watch[..i])
        modifies {}
      {
        assert watch[..i + 1] == watch[..i] + [watch[i]];
        if watch[i].status {
          uuids := uuids + [watch[i].uuid];
        }
      }
      assert watch[..|watch|] == watch;
      notice := Some((OwnCampaign(self, now), uuids));
    }

    /** `ElectNotify`. */
    method ElectNotify(req: ElectCampReq, now: int) returns (ok: bool)
      modifies this
      ensures (View(), ok) == Step(old(View()), Hear(req, now))
    {
      if exprie > now && begin < req.begin {
        return false;
      }
      center, nodeId := false, req.nodeId;
      begin, exprie := req.begin, req.exprie;
      ok := true;
    }
  }

  ghost function UpNodes(watch: seq<WatchNode>): seq<string> {
    if watch == [] then []
    else
      var z := |watch| - 1;
      UpNodes(watch[..z]) + if watch[z].status then [watch[z].uuid] else []
  }

  /** Exactly the watchers that are up are notified, in the order in which they are
      known: entry k is the uuid of the watcher at place idx[k]. */
  lemma {:induction false} UpNodesInOrder(watch: seq<WatchNode>) returns (idx: seq<nat>)
    ensures |UpNodes(watch)| == |idx|
    ensures forall k :: 0 <= k < |idx| ==>
              idx[k] < |watch| && watch[idx[k]].status && UpNodes(watch)[k] == watch[idx[k]].uuid
    ensures forall j, k :: 0 <= j < k < |idx| ==> idx[j] < idx[k]
    ensures forall i: nat :: i < |watch| && watch[i].status ==> i in idx
  {
    if watch == [] {
      idx := [];
    } else {
      var z := |watch| - 1;
      var before := UpNodesInOrder(watch[..z]);
      idx := before + if watch[z].status then [z] else [];
      forall i: nat | i < |watch| && watch[i].status ensures i in idx {
        if i < z {
          assert watch[..z][i] == watch[i] && i in before;
        } else {
          assert idx[|before|] == z;
        }
      }
    }
  }

  // ---------------------------------------------------------------------------

  lemma BeginKept(e: Election, ev: Event)
    requires e.exprie > ev.now
    ensures Step(e, ev).0.begin <= e.begin
  {
  }

  /** As long as some campaign is running, whichever it is by then, the adopted
      timestamp never grows. */
  lemma {:induction false} BeginNeverGrows(e: Election, evs: seq<Event>, t: nat, u: nat)
    requires t <= u <= |evs|
    requires forall i :: t <= i < u ==> After(Step, e, evs[..i]).exprie > evs[i].now
    ensures After(Step, e, evs[..u]).begin <= After(Step, e, evs[..t]).begin
  {
    if t < u {
      BeginNeverGrows(e, evs, t, u - 1);
      assert evs[..u][..u - 1] == evs[..u - 1];
      BeginKept(After(Step, e, evs[..u - 1]), evs[u - 1]);
    }
  }

  /** The campaign event i brings to a watcher whose first event finds no
      campaign running. */
  function Offer(evs: seq<Event>, i: nat): Option<ElectCampReq>
    requires i < |evs|
  {
    match evs[i]
    case Hear(req, _) => Some(req)
    case Stand(self, now) => if i == 0 then Some(OwnCampaign(self, now)) else None
  }

  ghost function Offers(evs: seq<Event>): set<ElectCampReq> {
    set i | 0 <= i < |evs| && Offer(evs, i).Some? :: Offer(evs, i).value
  }

  /** One campaign window: no campaign runs at its start, every campaign lasts
      `WINDOW`, and everything happens before the earliest one expires. */
  ghost predicate OneWindow(e: Election, evs: seq<Event>) {
    && evs != [] && e.exprie <= evs[0].now
    && (forall c :: c in Offers(evs) ==> c.exprie == c.begin + WINDOW)
    && (forall c, i :: c in Offers(evs) && 0 <= i < |evs| ==> evs[i].now < c.begin + WINDOW)
  }

  /** The last event among the first n that brings a least timestamp. */
  ghost function Winner(evs: seq<Event>, n: nat): (w: nat)
    requires 0 < n <= |evs|
    ensures w < n && Offer(evs, w).Some?
  {
    if n == 1 then 0
    else
      var w := Winner(evs, n - 1);
      if Offer(evs, n - 1).Some? && Offer(evs, n - 1).value.begin <= Offer(evs, w).value.begin then n - 1 else w
  }

  lemma {:induction false} WinnerIsLeast(evs: seq<Event>, n: nat)
    requires 0 < n <= |evs|
    ensures var w := Winner(evs, n);
            forall i :: 0 <= i < n && Offer(evs, i).Some? ==>
              && Offer(evs, w).value.begin <= Offer(evs, i).value.begin
              && (i > w ==> Offer(evs, w).value.begin < Offer(evs, i).value.begin)
  {
    if n > 1 {
      WinnerIsLeast(evs, n - 1);
    }
  }

  lemma {:induction false} WinnerAdopted(e: Election, evs: seq<Event>, n: nat)
    requires OneWindow(e, evs) && 0 < n <= |evs|
    ensures After(Step, e, evs[..n]) == Adopted(Offer(evs, Winner(evs, n)).value)
  {
    assert evs[..n][..n - 1] == evs[..n - 1];
    if n > 1 {
      WinnerAdopted(e, evs, n - 1);
      var c := Offer(evs, Winner(evs, n - 1)).value;
      assert c in Offers(evs);
      assert evs[n - 1].now < c.begin + WINDOW;
    } else {
      assert evs[..0] == [];
    }
  }

  /** Convergence. Within one window a watcher ends up with the campaign of the
      least timestamp it met, in whatever order and however often campaigns
      arrive; among campaigns that share the least timestamp it is the one that
      arrived last. */
  lemma EarliestWins(e: Election, evs: seq<Event>) returns (w: nat)
    requires OneWindow(e, evs)
    ensures w < |evs| && Offer(evs, w).Some?
    ensures After(Step, e, evs) ==
            Election(false, Offer(evs, w).value.nodeId, Offer(evs, w).value.begin, Offer(evs, w).value.exprie)
    ensures forall c :: c in Offers(evs) ==> Offer(evs, w).value.begin <= c.begin
    ensures forall i :: w < i < |evs| && Offer(evs, i).Some? ==> Offer(evs, w).value.begin < Offer(evs, i).value.begin
  {
    w := Winner(evs, |evs|);
    WinnerIsLeast(evs, |evs|);
    WinnerAdopted(e, evs, |evs|);
    assert evs[..|evs|] == evs;
  }

  ghost predicate Least(offers: set<ElectCampReq>, c: ElectCampReq) {
    c in offers && forall o :: o in offers ==> c.begin <= o.begin
  }

  /** One campaign alone has the least timestamp. */
  ghost predicate LeastIsUnique(offers: set<ElectCampReq>) {
    forall c, c' :: Least(offers, c) && Least(offers, c') ==> c == c'
  }

  lemma WinnerIsInLeast(e: Election, evs: seq<Event>) returns (c: ElectCampReq)
    requires OneWindow(e, evs)
    ensures Least(Offers(evs), c) && After(Step, e, evs) == Adopted(c)
  {
    var w := EarliestWins(e, evs);
    c := Offer(evs, w).value;
    assert c in Offers(evs);
  }

  /** Hearing another least campaign once more changes the outcome to it. */
  lemma HeardAgain(e: Election, evs: seq<Event>, c: ElectCampReq)
    requires OneWindow(e, evs) && Least(Offers(evs), c)
    ensures var evs' := evs + [Hear(c, evs[|evs| - 1].now)];
            OneWindow(e, evs') && Offers(evs') == Offers(evs) && After(Step, e, evs') == Adopted(c)
  {
    var z := |evs|;
    var evs' := evs + [Hear(c, evs[z - 1].now)];
    assert forall i :: 0 <= i < z ==> evs'[i] == evs[i] && Offer(evs', i) == Offer(evs, i);
    assert Offer(evs', z) == Some(c);
    forall o ensures o in Offers(evs') <==> o in Offers(evs) {
      if o in Offers(evs) {
        var i :| 0 <= i < |evs| && Offer(evs, i).Some? && Offer(evs, i).value == o;
        assert Offer(evs', i).Some? && Offer(evs', i).value == o;
      }
    }
    assert OneWindow(e, evs');
    assert evs'[..z] == evs;
    var o := WinnerIsInLeast(e, evs);
    assert Step(After(Step, e, evs), evs'[z]).0 == Adopted(c);
  }

  /** When watchers agree: all watchers that meet this set of campaigns within one
      window end up with the same campaign, whatever the order and the repeats,
      exactly when one campaign alone has the least timestamp. */
  lemma WatchersAgreeExactly(e: Election, evs: seq<Event>)
    requires OneWindow(e, evs)
    ensures (forall e', evs' :: OneWindow(e', evs') && Offers(evs') == Offers(evs) ==>
               After(Step, e', evs') == After(Step, e, evs))
       <==> LeastIsUnique(Offers(evs))
  {
    var c := WinnerIsInLeast(e, evs);
    if LeastIsUnique(Offers(evs)) {
      forall e', evs' | OneWindow(e', evs') && Offers(evs') == Offers(evs)
        ensures After(Step, e', evs') == After(Step, e, evs)
      {
        var c' := WinnerIsInLeast(e', evs');
        assert Least(Offers(evs), c');
      }
    } else {
      var a, b :| Least(Offers(evs), a) && Least(Offers(evs), b) && a != b;
      HeardAgain(e, evs, a);
      HeardAgain(e, evs, b);
      SameWindowDiffers(e, evs, a, b);
    }
  }

  lemma SameWindowDiffers(e: Election, evs: seq<Event>, a: ElectCampReq, b: ElectCampReq)
    requires evs != [] && a != b && a.begin == b.begin
    requires forall c :: c in {a, b} ==>
               var evs' := evs + [Hear(c, evs[|evs| - 1].now)];
               OneWindow(e, evs') && Offers(evs') == Offers(evs) && After(Step, e, evs') == Adopted(c)
    ensures exists e', evs' :: OneWindow(e', evs') && Offers(evs') == Offers(evs)
              && After(Step, e', evs') != After(Step, e, evs)
  {
    var u, v := evs + [Hear(a, evs[|evs| - 1].now)], evs + [Hear(b, evs[|evs| - 1].now)];
    assert a in {a, b} && b in {a, b};
    assert Adopted(a) != Adopted(b) by {
      assert u[|evs|] == Hear(a, evs[|evs| - 1].now) && v[|evs|] == Hear(b, evs[|evs| - 1].now);
      assert Offer(u, |evs|).value in Offers(u) && Offer(v, |evs|).value in Offers(v);
    }
  }

  /** Such a tie can happen: two watchers stand in the same millisecond, and the
      rest hear of both. Whoever hears them in the other order disagrees. */
  lemma TieDisagrees(e: Election, now: int, a: string, b: string)
    requires e.exprie <= now && a != b
    ensures var x, y := Hear(OwnCampaign(a, now), now), Hear(OwnCampaign(b, now), now);
            && OneWindow(e, [x, y]) && OneWindow(e, [y, x]) && Offers([x, y]) == Offers([y, x])
            && !LeastIsUnique(Offers([x, y]))
            && After(Step, e, [x, y]).nodeId == b && After(Step, e, [y, x]).nodeId == a
  {
    var p, q := OwnCampaign(a, now), OwnCampaign(b, now);
    TwoOffers(p, q, now);
    TwoOffers(q, p, now);
    TwoHeard(e, p, q, now);
    TwoHeard(e, q, p, now);
    var offers := Offers([Hear(p, now), Hear(q, now)]);
    assert Least(offers, p) && Least(offers, q);
  }

  lemma TwoOffers(p: ElectCampReq, q: ElectCampReq, now: int)
    ensures Offers([Hear(p, now), Hear(q, now)]) == {p, q}
  {
    var evs := [Hear(p, now), Hear(q, now)];
    assert Offer(evs, 0) == Some(p) && Offer(evs, 1) == Some(q);
  }

  lemma TwoHeard(e: Election, p: ElectCampReq, q: ElectCampReq, now: int)
    requires e.exprie <= now && p.begin == q.begin
    ensures After(Step, e, [Hear(p, now), Hear(q, now)]) == Adopted(q)
  {
    var evs := [Hear(p, now), Hear(q, now)];
    assert evs[..1] == [evs[0]] && evs[..1][..0] == [];
    assert After(Step, e, evs[..1]) == Adopted(p);
  }

  /** A campaign of one's own lasts ten seconds: a second wish to stand is ignored for
      9999 ms and heeded after 10000. */
  lemma TenSeconds(e: Election, self: string, other: string, now: int)
    requires e.exprie <= now
    ensures var mine := Step(e, Stand(self, now)).0;
            && mine == Election(false, self, now, now + 10_000)
            && !Step(mine, Stand(other, now + 9_999)).1
            && Step(mine, Stand(other, now + 10_000)) == (Election(false, other, now + 10_000, now + 20_000), true)
  {
  }
}
