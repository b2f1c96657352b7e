/** The watcher: the api registry together with the table of live nodes, driven by
    registrations, heartbeats, expiry sweeps and lookups. */
module Watcher {
  import opened Common
  import opened Registry
  import opened Runs

  /** A node is dropped when its last sign of life is older than this (ms). */
  const CONN_TIMEOUT := 4000

  datatype NodeInfo = NodeInfo(uuid: string, name: string, host: string)

  /** What a node reports with a heartbeat. */
  datatype SystemStatus = SystemStatus(uuid: string, cpuRate: nat, memFree: nat, memUsed: nat, connNum: nat)

  datatype NodeMsg = NodeMsg(base: NodeInfo, syst: Option<SystemStatus>, stamp: int, state: bool)

  type Table = map<string, NodeMsg>

  /** A known uuid only counts as a sign of life if the host is the same. */
  function PutNodeDetail(t: Table, info: NodeInfo, now: int): Table {
    if info.uuid in t then
      if t[info.uuid].base.host == info.host then t[info.uuid := t[info.uuid].(stamp := now, state := true)] else t
    else t[info.uuid := NodeMsg(info, None, now, true)]
  }

  function UpHeartbeat(t: Table, sys: SystemStatus, now: int): (Table, bool) {
    if sys.uuid in t then (t[sys.uuid := t[sys.uuid].(stamp := now, state := true, syst := Some(sys))], true)
    else (t, false)
  }

  predicate Expired(m: NodeMsg, now: int) {
    !m.state || m.stamp < now - CONN_TIMEOUT
  }

  function ClearNodeExprie(t: Table, now: int): Table {
    map u | u in t && !Expired(t[u], now) :: t[u]
  }

  // ---------------------------------------------------------------------------

  datatype State = State(funcs: Funcs, nodes: Table)

  datatype Event =
    | Registered(info: NodeInfo, apis: seq<FuncApi>, now: int)
    | Heartbeats(sys: SystemStatus, now: int)
    | Sweep(now: int)
    | GetApiConn(fid: nat, name: string, now: int)

  datatype Answer =
    | Failed
    | Done
    | Ids(apis: seq<FuncApi>)
    | Conns(func: Option<FuncMsg>, list: seq<NodeInfo>)

  /** Registers all apis of one node; an api the registry rejects is reported as
      it came. */
  function PutAll(f: Funcs, uuid: string, apis: seq<FuncApi>): (Funcs, seq<FuncApi>) {
    if apis == [] then (f, [])
    else
      var z := |apis| - 1;
      var (f', out) := PutAll(f, uuid, apis[..z]);
      var (f'', r) := PutApi(f', uuid, apis[z]);
      (f'', out + [if r.Some? then r.value else apis[z]])
  }

  /** The api a lookup asks for, by id or else by name. */
  function Find(f: Funcs, fid: nat, name: string): Option<FuncMsg> {
    if fid != 0 then if fid in f.ids then Some(f.ids[fid].msg) else None
    else if name != "" then if name in f.str then Some(f.str[name].msg) else None
    else None
  }

  function IdOf(msg: Option<FuncMsg>): nat {
    if msg.Some? then msg.value.funcId else 0
  }

  function Bases(t: Table, uuids: seq<string>): (list: seq<NodeInfo>)
    requires forall u :: u in uuids ==> u in t
    ensures |list| == |uuids|
    ensures forall i :: 0 <= i < |uuids| ==> list[i] == t[uuids[i]].base
  {
    seq(|uuids|, i requires 0 <= i < |uuids| => t[uuids[i]].base)
  }

  /** The nodes that listed providers of api `id` are still alive. */
  function Providers(f: Funcs, t: Table, id: nat): (p: seq<string>)
    ensures forall u :: u in p ==> u in t
  {
    if id in f.ids then
      AliveIs(f.ids[id].node, t.Keys);
      Alive(f.ids[id].node, t.Keys)
    else []
  }

  ghost function Step(s: State, ev: Event): (State, Answer) {
    match ev
    case Registered(info, apis, now) =>
      if info.uuid == "" then (s, Failed)
      else
        var (f, out) := PutAll(s.funcs, info.uuid, apis);
        (State(f, PutNodeDetail(s.nodes, info, now)), Ids(out))
    case Heartbeats(sys, now) =>
      var (t, ok) := UpHeartbeat(s.nodes, sys, now);
      (s.(nodes := t), if ok then Done else Failed)
    case Sweep(now) => (s.(nodes := ClearNodeExprie(s.nodes, now)), Done)
    case GetApiConn(fid, name, _) =>
      var func := Find(s.funcs, fid, name);
      (s.(funcs := Prune(s.funcs, IdOf(func), s.nodes.Keys)),
       Conns(func, Bases(s.nodes, Providers(s.funcs, s.nodes, IdOf(func)))))
  }

  /** A watcher whose id counter stands at `num`. */
  function Init(num: nat): State {
    State(Empty(num), map[])
  }

  // ---------------------------------------------------------------------------
  // What every step keeps

  /** Who registered what: ever, and since the node was last dropped. */
  datatype History = History(ever: set<(string, string)>, current: set<(string, string)>)

  ghost function Named(apis: seq<FuncApi>, uuid: string): set<(string, string)> {
    set i | 0 <= i < |apis| && apis[i].name != "" :: (apis[i].name, uuid)
  }

  ghost function Note(h: History, s: State, ev: Event): History {
    match ev
    case Registered(info, apis, _) =>
      if info.uuid == "" then h
      else History(h.ever + Named(apis, info.uuid), h.current + Named(apis, info.uuid))
    case Sweep(now) => h.(current := set p | p in h.current && p.1 in ClearNodeExprie(s.nodes, now))
    case _ => h
  }

  /** The registry has room for the ids a registration may need. */
  ghost predicate Fits(s: State, ev: Event) {
    ev.Registered? ==> s.funcs.num + |ev.apis| < UINT32
  }

  ghost predicate Listed(f: Funcs, n: string, u: string) {
    n in f.str && u in f.str[n].node
  }

  ghost predicate Holds(s: State, h: History) {
    && Consistent(s.funcs)
    && (forall u :: u in s.nodes ==> u != "" && s.nodes[u].base.uuid == u && s.nodes[u].state)
    && (forall n, u :: Listed(s.funcs, n, u) ==> (n, u) in h.ever)
    && (forall p :: p in h.current ==> Listed(s.funcs, p.0, p.1) && p.1 in s.nodes)
  }

  lemma PutApiLists(f: Funcs, uuid: string, arg: FuncApi)
    requires Consistent(f) && uuid != "" && arg.name != ""
    ensures forall n, u :: Listed(PutApi(f, uuid, arg).0, n, u) <==> Listed(f, n, u) || (n == arg.name && u == uuid)
    ensures PutApi(f, uuid, arg).0.num <= if f.num + 1 < UINT32 then f.num + 1 else f.num
  {
  }

  lemma KeepsTransitive(a: Funcs, b: Funcs, c: Funcs)
    requires Keeps(a, b) && Keeps(b, c)
    ensures Keeps(a, c)
  {
  }

  lemma NamedSnoc(apis: seq<FuncApi>, uuid: string)
    requires apis != []
    ensures var z := |apis| - 1;
            Named(apis, uuid) == Named(apis[..z], uuid) + if apis[z].name != "" then {(apis[z].name, uuid)} else {}
  {
  }

  /** A registration provides every named api, and nothing else. */
  lemma {:induction false} PutAllLists(f: Funcs, uuid: string, apis: seq<FuncApi>)
    requires Consistent(f) && uuid != "" && f.num + |apis| < UINT32
    ensures var f' := PutAll(f, uuid, apis).0;
            && Consistent(f') && Keeps(f, f') && f'.num <= f.num + |apis|
            && forall n, u :: Listed(f', n, u) <==> Listed(f, n, u) || (n, u) in Named(apis, uuid)
  {
    if apis == [] {
      assert Named(apis, uuid) == {};
    } else {
      var z := |apis| - 1;
      PutAllLists(f, uuid, apis[..z]);
      NamedSnoc(apis, uuid);
      PutOneMore(f, PutAll(f, uuid, apis[..z]).0, uuid, apis[z]);
    }
  }

  lemma PutOneMore(f: Funcs, f': Funcs, uuid: string, arg: FuncApi)
    requires Consistent(f') && Keeps(f, f') && uuid != "" && f'.num + 1 < UINT32
    ensures var f'' := PutApi(f', uuid, arg).0;
            && Consistent(f'') && Keeps(f, f'') && f''.num <= f'.num + 1
            && forall n, u :: Listed(f'', n, u) <==> Listed(f', n, u) || (arg.name != "" && n == arg.name && u == uuid)
  {
    PutApiKeeps(f', uuid, arg);
    if arg.name != "" {
      PutApiLists(f', uuid, arg);
      KeepsTransitive(f, f', PutApi(f', uuid, arg).0);
    }
  }

  lemma HoldsRegistered(s: State, h: History, info: NodeInfo, apis: seq<FuncApi>, now: int)
    requires Holds(s, h) && Fits(s, Registered(info, apis, now))
    ensures Holds(Step(s, Registered(info, apis, now)).0, Note(h, s, Registered(info, apis, now)))
  {
    if info.uuid != "" {
      hide Consistent, PutAll, Named, Keeps, Listed;
      PutAllLists(s.funcs, info.uuid, apis);
      ListedNow(s.funcs, info.uuid, apis);
    }
  }

  lemma ListedNow(f: Funcs, uuid: string, apis: seq<FuncApi>)
    requires Consistent(f) && uuid != "" && f.num + |apis| < UINT32
    ensures forall p :: p in Named(apis, uuid) ==> Listed(PutAll(f, uuid, apis).0, p.0, p.1) && p.1 == uuid
  {
    PutAllLists(f, uuid, apis);
  }

  lemma PruneLists(f: Funcs, id: nat, alive: set<string>)
    requires Consistent(f)
    ensures forall n, u :: Listed(Prune(f, id, alive), n, u) ==> Listed(f, n, u)
    ensures forall n, u :: Listed(f, n, u) && u in alive ==> Listed(Prune(f, id, alive), n, u)
  {
    if id in f.ids {
      AliveIs(f.ids[id].node, alive);
    }
  }

  lemma HoldsStep(s: State, h: History, ev: Event)
    requires Holds(s, h) && Fits(s, ev)
    ensures Holds(Step(s, ev).0, Note(h, s, ev))
  {
    match ev
    case Registered(info, apis, now) => HoldsRegistered(s, h, info, apis, now);
    case Heartbeats(sys, now) =>
    case Sweep(now) =>
    case GetApiConn(fid, name, _) =>
      var id := IdOf(Find(s.funcs, fid, name));
      PruneKeeps(s.funcs, id, s.nodes.Keys);
      PruneLists(s.funcs, id, s.nodes.Keys);
  }

  // ---------------------------------------------------------------------------
  // Runs

  ghost function Noted(): ((State, History), Event) -> ((State, History), Answer) {
    (s: (State, History), ev: Event) => ((Step(s.0, ev).0, Note(s.1, s.0, ev)), Step(s.0, ev).1)
  }

  ghost function Begin(num: nat): (State, History) {
    (Init(num), History({}, {}))
  }

  /** A run of a watcher whose counter starts at `num`, with room for all ids. */
  ghost predicate FittingRun(num: nat, evs: seq<Event>) {
    && WATCH_IN_MAX <= num < UINT32
    && forall t :: 0 <= t < |evs| ==> Fits(After(Noted(), Begin(num), evs[..t]).0, evs[t])
  }

  lemma {:induction false} HoldsPrefix(num: nat, evs: seq<Event>, t: nat)
    requires FittingRun(num, evs) && t <= |evs|
    ensures var now := After(Noted(), Begin(num), evs[..t]); Holds(now.0, now.1)
  {
    if t > 0 {
      HoldsPrefix(num, evs, t - 1);
      assert evs[..t][..t - 1] == evs[..t - 1];
      var now := After(Noted(), Begin(num), evs[..t - 1]);
      HoldsStep(now.0, now.1, evs[t - 1]);
    }
  }

  /** The registry theorem: in every reachable state both indexes hold the same
      entries, ids and names correspond one to one, and what a lookup by id finds
      a lookup by its name finds too. */
  lemma RegistryConsistent(num: nat, evs: seq<Event>)
    requires FittingRun(num, evs)
    ensures var f := After(Noted(), Begin(num), evs).0.funcs;
            && Consistent(f)
            && (forall k :: k in f.ids && k != 0 ==> Find(f, 0, f.ids[k].msg.apiName) == Find(f, k, ""))
            && (forall k :: k in f.ids ==> 100 < k <= f.num)
            && (forall k, k' :: k in f.ids && k' in f.ids && f.ids[k].msg.apiName == f.ids[k'].msg.apiName ==> k == k')
  {
    HoldsPrefix(num, evs, |evs|);
    assert evs[..|evs|] == evs;
  }

  /** The registry after the first t events. */
  ghost function FuncsAt(num: nat, evs: seq<Event>, t: nat): Funcs
    requires t <= |evs|
  {
    After(Noted(), Begin(num), evs[..t]).0.funcs
  }

  lemma KeptByStep(num: nat, evs: seq<Event>, t: nat)
    requires FittingRun(num, evs) && t < |evs|
    ensures Keeps(FuncsAt(num, evs, t), FuncsAt(num, evs, t + 1))
  {
    HoldsPrefix(num, evs, t);
    assert evs[..t + 1][..t] == evs[..t];
    FuncsKept(After(Noted(), Begin(num), evs[..t]).0, evs[t]);
  }

  /** Names keep their ids, and ids their names, however the run goes on. */
  lemma {:induction false} IdsAreForever(num: nat, evs: seq<Event>, t: nat, u: nat)
    requires FittingRun(num, evs) && t <= u <= |evs|
    ensures Keeps(FuncsAt(num, evs, t), FuncsAt(num, evs, u))
  {
    if t < u {
      IdsAreForever(num, evs, t, u - 1);
      KeptByStep(num, evs, u - 1);
      KeepsTransitive(FuncsAt(num, evs, t), FuncsAt(num, evs, u - 1), FuncsAt(num, evs, u));
    }
  }

  lemma FuncsKept(s: State, ev: Event)
    requires Consistent(s.funcs) && Fits(s, ev)
    ensures Keeps(s.funcs, Step(s, ev).0.funcs)
  {
    match ev
    case Registered(info, apis, now) =>
      if info.uuid != "" {
        PutAllLists(s.funcs, info.uuid, apis);
      }
    case GetApiConn(fid, name, _) => PruneKeeps(s.funcs, IdOf(Find(s.funcs, fid, name)), s.nodes.Keys);
    case _ =>
  }
}
