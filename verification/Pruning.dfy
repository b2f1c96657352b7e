/** `GetApiConn` drops dead providers from the lists it reads. That changes no
    later answer until a dropped node registers again. */
module Pruning {
  import opened Common
  import opened Registry
  import opened Runs
  import opened Watcher

  /** A provider list without the nodes in `gone`. */
  ghost function Without(uuids: seq<string>, gone: set<string>): seq<string> {
    if uuids == [] then []
    else
      var z := |uuids| - 1;
      Without(uuids[..z], gone) + if uuids[z] in gone then [] else [uuids[z]]
  }

  ghost function StripEntry(gone: set<string>, e: Entry): Entry {
    e.(node := Without(e.node, gone))
  }

  ghost function Strip(gone: set<string>, f: Funcs): Funcs {
    Funcs(map k | k in f.ids :: StripEntry(gone, f.ids[k]), map n | n in f.str :: StripEntry(gone, f.str[n]), f.num)
  }

  /** The registry as it would be had no node in `gone` ever been listed. */
  ghost function StripState(gone: set<string>, s: State): State {
    s.(funcs := Strip(gone, s.funcs))
  }

  lemma {:induction false} WithoutIn(uuids: seq<string>, gone: set<string>, u: string)
    requires u !in gone
    ensures u in Without(uuids, gone) <==> u in uuids
  {
    if uuids != [] {
      var z := |uuids| - 1;
      WithoutIn(uuids[..z], gone, u);
      assert uuids == uuids[..z] + [uuids[z]];
    }
  }

  lemma WithoutSnoc(uuids: seq<string>, gone: set<string>, u: string)
    requires u !in gone
    ensures Without(uuids + [u], gone) == Without(uuids, gone) + [u]
  {
    assert (uuids + [u])[..|uuids|] == uuids;
  }

  lemma AliveSnoc(uuids: seq<string>, alive: set<string>, u: string)
    ensures Alive(uuids + [u], alive) == Alive(uuids, alive) + if u in alive then [u] else []
  {
    assert (uuids + [u])[..|uuids|] == uuids;
  }

  lemma WithoutStep(uuids: seq<string>, gone: set<string>, u: string)
    ensures Without(uuids + [u], gone) == Without(uuids, gone) + if u in gone then [] else [u]
  {
    assert (uuids + [u])[..|uuids|] == uuids;
  }

  /** Dead nodes do not show among the live ones. */
  lemma {:induction false} AliveIgnores(uuids: seq<string>, gone: set<string>, alive: set<string>)
    requires gone !! alive
    ensures Alive(Without(uuids, gone), alive) == Alive(uuids, alive)
  {
    if uuids != [] {
      var z := |uuids| - 1;
      AliveIgnores(uuids[..z], gone, alive);
      if uuids[z] !in gone {
        AliveSnoc(Without(uuids[..z], gone), alive, uuids[z]);
      } else {
        assert uuids[z] !in alive;
        assert Without(uuids, gone) == Without(uuids[..z], gone);
      }
    }
  }

  /** Nor is anything to be removed from the live ones. */
  lemma {:induction false} AliveWithout(uuids: seq<string>, gone: set<string>, alive: set<string>)
    requires gone !! alive
    ensures Without(Alive(uuids, alive), gone) == Alive(uuids, alive)
  {
    if uuids != [] {
      var z := |uuids| - 1;
      AliveWithout(uuids[..z], gone, alive);
      if uuids[z] in alive {
        WithoutStep(Alive(uuids[..z], alive), gone, uuids[z]);
        assert Alive(uuids, alive) == Alive(uuids[..z], alive) + [uuids[z]];
      } else {
        assert Alive(uuids, alive) == Alive(uuids[..z], alive);
      }
    }
  }

  /** Without exactly the dead nodes, a list is its live part. */
  lemma {:induction false} WithoutDead(uuids: seq<string>, gone: set<string>, alive: set<string>)
    requires gone !! alive && forall u :: u in uuids ==> u in gone || u in alive
    ensures Without(uuids, gone) == Alive(uuids, alive)
  {
    if uuids != [] {
      WithoutDead(uuids[..|uuids| - 1], gone, alive);
    }
  }

  lemma StripStore(gone: set<string>, f: Funcs, id: nat, name: string, e: Entry)
    ensures Strip(gone, Store(f, id, name, e)) == Store(Strip(gone, f), id, name, StripEntry(gone, e))
  {
  }

  lemma StripProvide(gone: set<string>, f: Funcs, uuid: string, name: string)
    requires uuid !in gone && name in f.str
    ensures Provide(Strip(gone, f), uuid, name) == Strip(gone, Provide(f, uuid, name))
  {
    var e := f.str[name];
    WithoutIn(e.node, gone, uuid);
    if uuid !in e.node {
      WithoutSnoc(e.node, gone, uuid);
      StripStore(gone, f, e.msg.funcId, name, e.(node := e.node + [uuid]));
    }
  }

  lemma StripInsert(gone: set<string>, f: Funcs, e: Entry)
    requires |e.node| == 1 && e.node[0] !in gone
    ensures Insert(Strip(gone, f), e) == Strip(gone, Insert(f, e))
  {
    assert e.node == [] + [e.node[0]];
    WithoutSnoc([], gone, e.node[0]);
    assert StripEntry(gone, e) == e;
    StripStore(gone, f, e.msg.funcId, e.msg.apiName, e);
  }

  /** The three cases of `PutApi`. */
  lemma PutApiCases(f: Funcs, uuid: string, arg: FuncApi)
    ensures PutApi(f, uuid, arg).0 ==
            if uuid == "" || arg.name == "" then f
            else if arg.name in f.str then Provide(f, uuid, arg.name)
            else Insert(f, NewEntry(NextId(f), uuid, arg))
    ensures PutApi(f, uuid, arg).1 ==
            if uuid == "" || arg.name == "" then None
            else Some(arg.(id := if arg.name in f.str then f.str[arg.name].msg.funcId else NextId(f)))
  {
  }

  lemma StripNew(gone: set<string>, f: Funcs, uuid: string, arg: FuncApi)
    ensures NewEntry(NextId(Strip(gone, f)), uuid, arg) == NewEntry(NextId(f), uuid, arg)
    ensures arg.name in Strip(gone, f).str <==> arg.name in f.str
  {
  }

  lemma StripPutKnown(gone: set<string>, f: Funcs, uuid: string, arg: FuncApi)
    requires uuid !in gone && uuid != "" && arg.name != "" && arg.name in f.str
    ensures PutApi(Strip(gone, f), uuid, arg).0 == Strip(gone, PutApi(f, uuid, arg).0)
  {
    PutApiCases(f, uuid, arg);
    PutApiCases(Strip(gone, f), uuid, arg);
    StripNew(gone, f, uuid, arg);
    StripProvide(gone, f, uuid, arg.name);
  }

  lemma StripPutNew(gone: set<string>, f: Funcs, uuid: string, arg: FuncApi)
    requires uuid !in gone && uuid != "" && arg.name != "" && arg.name !in f.str
    ensures PutApi(Strip(gone, f), uuid, arg).0 == Strip(gone, PutApi(f, uuid, arg).0)
  {
    PutApiCases(f, uuid, arg);
    PutApiCases(Strip(gone, f), uuid, arg);
    StripNew(gone, f, uuid, arg);
    StripInsert(gone, f, NewEntry(NextId(f), uuid, arg));
  }

  lemma StripPutApi(gone: set<string>, f: Funcs, uuid: string, arg: FuncApi)
    requires uuid !in gone
    ensures PutApi(Strip(gone, f), uuid, arg).0 == Strip(gone, PutApi(f, uuid, arg).0)
    ensures PutApi(Strip(gone, f), uuid, arg).1 == PutApi(f, uuid, arg).1
  {
    if uuid != "" && arg.name != "" {
      if arg.name in f.str {
        StripPutKnown(gone, f, uuid, arg);
      } else {
        StripPutNew(gone, f, uuid, arg);
      }
    }
  }

  lemma {:induction false} StripPutAll(gone: set<string>, f: Funcs, uuid: string, apis: seq<FuncApi>)
    requires uuid !in gone
    ensures PutAll(Strip(gone, f), uuid, apis) == (Strip(gone, PutAll(f, uuid, apis).0), PutAll(f, uuid, apis).1)
  {
    if apis != [] {
      var z := |apis| - 1;
      StripPutAll(gone, f, uuid, apis[..z]);
      StripPutApi(gone, PutAll(f, uuid, apis[..z]).0, uuid, apis[z]);
    }
  }

  lemma StripPrune(gone: set<string>, f: Funcs, id: nat, alive: set<string>)
    requires gone !! alive
    ensures Prune(Strip(gone, f), id, alive) == Strip(gone, Prune(f, id, alive))
  {
    if id in f.ids {
      var e := f.ids[id];
      AliveIgnores(e.node, gone, alive);
      AliveWithout(e.node, gone, alive);
      StripStore(gone, f, id, e.msg.apiName, e.(node := Alive(e.node, alive)));
    }
  }

  lemma StripFind(gone: set<string>, f: Funcs, fid: nat, name: string)
    ensures Find(Strip(gone, f), fid, name) == Find(f, fid, name)
  {
  }

  lemma StripProviders(gone: set<string>, f: Funcs, t: Table, id: nat)
    requires gone !! t.Keys
    ensures Providers(Strip(gone, f), t, id) == Providers(f, t, id)
  {
    if id in f.ids {
      AliveIgnores(f.ids[id].node, gone, t.Keys);
    }
  }

  /** No step but a registration brings a dead node back, and none but that can
      tell whether the dead nodes are still listed. */
  lemma StripStep(gone: set<string>, s: State, ev: Event)
    requires gone !! s.nodes.Keys && (ev.Registered? ==> ev.info.uuid !in gone)
    ensures Step(StripState(gone, s), ev) == (StripState(gone, Step(s, ev).0), Step(s, ev).1)
    ensures gone !! Step(s, ev).0.nodes.Keys
  {
    match ev
    case Registered(info, apis, now) => StripPutAll(gone, s.funcs, info.uuid, apis);
    case GetApiConn(fid, name, now) =>
      var id := IdOf(Find(s.funcs, fid, name));
      StripFind(gone, s.funcs, fid, name);
      StripPrune(gone, s.funcs, id, s.nodes.Keys);
      StripProviders(gone, s.funcs, s.nodes, id);
    case Heartbeats(sys, now) =>
    case Sweep(now) =>
  }

  ghost predicate NoneReturns(gone: set<string>, evs: seq<Event>) {
    forall i :: 0 <= i < |evs| && evs[i].Registered? ==> evs[i].info.uuid !in gone
  }

  lemma StripRun(gone: set<string>, s: State, evs: seq<Event>)
    requires gone !! s.nodes.Keys && NoneReturns(gone, evs)
    ensures forall t :: 0 <= t < |evs| ==> OutAt(Step, s, evs, t) == OutAt(Step, StripState(gone, s), evs, t)
  {
    var rel := (a: State, b: State) => b == StripState(gone, a) && gone !! a.nodes.Keys;
    var f := Step;
    forall a, b, i {:trigger f(a, evs[i]), f(b, evs[i])} | 0 <= i < |evs| && rel(a, b)
      ensures f(a, evs[i]).1 == f(b, evs[i]).1 && rel(f(a, evs[i]).0, f(b, evs[i]).0)
    {
      StripStep(gone, a, evs[i]);
    }
    Simulation(f, f, rel, s, StripState(gone, s), evs, evs);
  }

  /** The providers a lookup drops. */
  ghost function Dropped(s: State, fid: nat, name: string): set<string> {
    var id := IdOf(Find(s.funcs, fid, name));
    if id in s.funcs.ids then (set u | u in s.funcs.ids[id].node) - s.nodes.Keys else {}
  }

  lemma StoreSame(f: Funcs, id: nat, name: string)
    requires id in f.ids && name in f.str && f.str[name] == f.ids[id]
    ensures Store(f, id, name, f.ids[id]) == f
  {
  }

  lemma PrunedIsStripped(s: State, fid: nat, name: string, now: int)
    requires Consistent(s.funcs)
    ensures var gone := Dropped(s, fid, name);
            StripState(gone, Step(s, GetApiConn(fid, name, now)).0) == StripState(gone, s)
  {
    var gone := Dropped(s, fid, name);
    var id := IdOf(Find(s.funcs, fid, name));
    if id in s.funcs.ids {
      PrunedEntry(gone, s.funcs, id, s.nodes.Keys);
    }
  }

  lemma PrunedEntry(gone: set<string>, f: Funcs, id: nat, alive: set<string>)
    requires Consistent(f) && id in f.ids && gone == (set u | u in f.ids[id].node) - alive
    ensures Strip(gone, Prune(f, id, alive)) == Strip(gone, f)
  {
    var e := f.ids[id];
    assert f.str[e.msg.apiName] == e;
    hide Consistent, Alive, Without;
    AliveWithout(e.node, gone, alive);
    WithoutDead(e.node, gone, alive);
    StripStore(gone, f, id, e.msg.apiName, e.(node := Alive(e.node, alive)));
    StoreSame(Strip(gone, f), id, e.msg.apiName);
  }

  /** Pruning is invisible: after a lookup has dropped dead providers, every later
      call answers as if it had not, as long as none of the dropped nodes
      registers again. */
  lemma PruningIsInvisible(s: State, fid: nat, name: string, now: int, evs: seq<Event>)
    requires Consistent(s.funcs) && NoneReturns(Dropped(s, fid, name), evs)
    ensures forall t :: 0 <= t < |evs| ==>
              OutAt(Step, Step(s, GetApiConn(fid, name, now)).0, evs, t) == OutAt(Step, s, evs, t)
  {
    var gone := Dropped(s, fid, name);
    PrunedIsStripped(s, fid, name, now);
    StripRun(gone, s, evs);
    StripRun(gone, Step(s, GetApiConn(fid, name, now)).0, evs);
  }
}
