/** How long the watcher keeps a node. */
module Liveness {
  import opened Common
  import opened Runs
  import opened Watcher

  /** The last sign of life of node u on `host` after the first t events; `first`
      is the one before them. */
  ghost function LastSign(evs: seq<Event>, u: string, host: string, first: int, t: nat): int
    requires t <= |evs|
  {
    if t == 0 then first
    else
      match evs[t - 1]
      case Heartbeats(sys, now) => if sys.uuid == u then now else LastSign(evs, u, host, first, t - 1)
      case Registered(info, _, now) =>
        if info.uuid == u && u != "" && info.host == host then now else LastSign(evs, u, host, first, t - 1)
      case _ => LastSign(evs, u, host, first, t - 1)
  }

  /** Every sweep comes at most 4000 ms after a sign of life of u. */
  ghost predicate SignsInTime(evs: seq<Event>, u: string, host: string, first: int, t: nat)
    requires t <= |evs|
  {
    forall i :: 0 <= i < t && evs[i].Sweep? ==> LastSign(evs, u, host, first, i) >= evs[i].now - 4000
  }

  ghost predicate Present(evs: seq<Event>, s: State, u: string, t: nat)
    requires t <= |evs|
  {
    u in After(Step, s, evs[..t]).nodes
  }

  /** One event on one node's record. */
  lemma NodeStep(s: State, ev: Event, u: string)
    requires u in s.nodes && s.nodes[u].state
    ensures var t := Step(s, ev).0.nodes;
            var m := s.nodes[u];
            match ev
            case Heartbeats(sys, now) =>
              u in t && t[u] == if sys.uuid == u then m.(stamp := now, syst := Some(sys)) else m
            case Registered(info, _, now) =>
              u in t && t[u] == if info.uuid == u && u != "" && info.host == m.base.host then m.(stamp := now) else m
            case Sweep(now) => if m.stamp >= now - CONN_TIMEOUT then u in t && t[u] == m else u !in t
            case GetApiConn(_, _, _) => u in t && t[u] == m
  {
  }

  lemma {:induction false} StampIsLastSign(s: State, evs: seq<Event>, u: string, t: nat)
    requires u in s.nodes && s.nodes[u].state && t <= |evs|
    requires SignsInTime(evs, u, s.nodes[u].base.host, s.nodes[u].stamp, t)
    ensures var now := After(Step, s, evs[..t]).nodes;
            && u in now && now[u].state && now[u].base == s.nodes[u].base
            && now[u].stamp == LastSign(evs, u, s.nodes[u].base.host, s.nodes[u].stamp, t)
  {
    if t > 0 {
      StampIsLastSign(s, evs, u, t - 1);
      assert evs[..t][..t - 1] == evs[..t - 1];
      NodeStep(After(Step, s, evs[..t - 1]), evs[t - 1], u);
    } else {
      assert evs[..0] == [];
    }
  }

  /** A node stays in the table throughout a run exactly when every sweep comes
      within 4000 ms of a heartbeat, or of a registration from the same host. */
  lemma StaysExactly(s: State, evs: seq<Event>, u: string)
    requires u in s.nodes && s.nodes[u].state
    ensures (forall t :: 0 <= t <= |evs| ==> Present(evs, s, u, t))
       <==> SignsInTime(evs, u, s.nodes[u].base.host, s.nodes[u].stamp, |evs|)
  {
    var host, first := s.nodes[u].base.host, s.nodes[u].stamp;
    if SignsInTime(evs, u, host, first, |evs|) {
      forall t | 0 <= t <= |evs| ensures Present(evs, s, u, t) {
        StampIsLastSign(s, evs, u, t);
      }
    } else {
      var i :| 0 <= i < |evs| && evs[i].Sweep? && LastSign(evs, u, host, first, i) < evs[i].now - CONN_TIMEOUT;
      var j := FirstMiss(evs, u, host, first, i);
      StampIsLastSign(s, evs, u, j);
      NodeStep(After(Step, s, evs[..j]), evs[j], u);
      assert evs[..j + 1][..j] == evs[..j];
      assert !Present(evs, s, u, j + 1);
    }
  }

  lemma {:induction false} FirstMiss(evs: seq<Event>, u: string, host: string, first: int, i: nat) returns (j: nat)
    requires i < |evs| && evs[i].Sweep? && LastSign(evs, u, host, first, i) < evs[i].now - CONN_TIMEOUT
    ensures j < |evs| && evs[j].Sweep? && LastSign(evs, u, host, first, j) < evs[j].now - CONN_TIMEOUT
    ensures SignsInTime(evs, u, host, first, j)
    decreases i
  {
    if SignsInTime(evs, u, host, first, i) {
      j := i;
    } else {
      var k :| 0 <= k < i && evs[k].Sweep? && LastSign(evs, u, host, first, k) < evs[k].now - CONN_TIMEOUT;
      j := FirstMiss(evs, u, host, first, k);
    }
  }

  // ---------------------------------------------------------------------------

  /** The time of the last sweep among the first t events, or the start. */
  ghost function LastSweep(evs: seq<Event>, start: int, t: nat): int
    requires t <= |evs|
  {
    if t == 0 then start else if evs[t - 1].Sweep? then evs[t - 1].now else LastSweep(evs, start, t - 1)
  }

  /** The clock does not run backwards, and sweeps are at most 5000 ms apart. */
  ghost predicate SweptOften(evs: seq<Event>, start: int) {
    forall t :: 0 <= t < |evs| ==>
      && LastSweep(evs, start, t) <= evs[t].now <= LastSweep(evs, start, t) + 5000
      && (t > 0 ==> evs[t - 1].now <= evs[t].now)
  }

  lemma {:induction false} StampsRecent(num: nat, evs: seq<Event>, start: int, t: nat)
    requires SweptOften(evs, start) && t <= |evs|
    ensures forall u :: u in After(Step, Init(num), evs[..t]).nodes ==>
              After(Step, Init(num), evs[..t]).nodes[u].stamp >= LastSweep(evs, start, t) - CONN_TIMEOUT
  {
    if t > 0 {
      StampsRecent(num, evs, start, t - 1);
      assert evs[..t][..t - 1] == evs[..t - 1];
      assert LastSweep(evs, start, t - 1) <= evs[t - 1].now;
    } else {
      assert evs[..0] == [];
    }
  }

  /** An event by which node u, on `host`, shows that it is alive. */
  ghost predicate Sign(ev: Event, u: string, host: string) {
    || (ev.Heartbeats? && ev.sys.uuid == u)
    || (ev.Registered? && ev.info.uuid == u && ev.info.host == host)
  }

  /** Event t is such an event, at the time of the node's stamp. */
  ghost predicate SignedAt(evs: seq<Event>, u: string, m: NodeMsg, t: nat) {
    t < |evs| && Sign(evs[t], u, m.base.host) && evs[t].now == m.stamp
  }

  lemma StampStep(s: State, ev: Event, u: string)
    requires u in Step(s, ev).0.nodes
    ensures var m := Step(s, ev).0.nodes[u];
            || (Sign(ev, u, m.base.host) && ev.now == m.stamp)
            || (u in s.nodes && s.nodes[u].base == m.base && s.nodes[u].stamp == m.stamp)
  {
  }

  /** The stamp of a node in the table is the time of a sign of life. */
  lemma {:induction false} StampIsSign(num: nat, evs: seq<Event>, u: string) returns (t: nat)
    requires u in After(Step, Init(num), evs).nodes
    ensures SignedAt(evs, u, After(Step, Init(num), evs).nodes[u], t)
  {
    var z := |evs| - 1;
    var s := After(Step, Init(num), evs[..z]);
    StampStep(s, evs[z], u);
    var m := Step(s, evs[z]).0.nodes[u];
    if Sign(evs[z], u, m.base.host) && evs[z].now == m.stamp {
      t := z;
    } else {
      t := StampIsSign(num, evs[..z], u);
    }
  }

  /** If sweeps are at most 5000 ms apart, every node in the table gave a sign of
      life within the last 9000 ms. */
  lemma TableIsFresh(num: nat, evs: seq<Event>, start: int, u: string) returns (t: nat)
    requires SweptOften(evs, start)
    requires u in After(Step, Init(num), evs).nodes
    ensures t < |evs| && Sign(evs[t], u, After(Step, Init(num), evs).nodes[u].base.host)
    ensures evs[t].now >= evs[|evs| - 1].now - 9000
  {
    t := StampIsSign(num, evs, u);
    hide Step, Sign;
    var z := |evs| - 1;
    StampsRecent(num, evs, start, |evs|);
    assert evs[..|evs|] == evs;
    assert evs[z].now <= LastSweep(evs, start, z) + 5000;
  }
}
