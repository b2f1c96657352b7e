/** The watcher as the source builds it: shared entry objects in two indexes, node
    records that handlers update, and the handlers themselves, proved against
    the state machine. */
module WatchServer {
  import opened Common
  import opened Registry
  import opened Watcher

  class FuncData {
    const msg: FuncMsg
    const api: FuncApi
    var node: seq<string>

    constructor (msg: FuncMsg, api: FuncApi, uuid: string)
      ensures this.msg == msg && this.api == api && node == [uuid]
    {
      this.msg, this.api, node := msg, api, [uuid];
    }

    ghost function Value(): Entry
      reads this
    {
      Entry(msg, api, node)
    }

    /** Adds a provider unless it is listed already. */
    method Provide(uuid: string)
      modifies this
      ensures node == if uuid in old(node) then old(node) else old(node) + [uuid]
    {
      for i := 0 to |node|
        invariant uuid !in node[..i]
        modifies {}
      {
        if node[i] == uuid {
          return;
        }
      }
      assert node[..|node|] == node;
      node := node + [uuid];
    }
  }

  class FuncMap {
    var ids: map<nat, FuncData>
    var str: map<string, FuncData>
    var num: nat

    /** Both indexes share their objects. */
    ghost predicate Valid()
      reads this
    {
      && num < UINT32
      && (forall k :: k in ids ==>
            ids[k].msg.funcId == k <= num && ids[k].msg.apiName in str && str[ids[k].msg.apiName] == ids[k])
      && (forall n :: n in str ==>
            str[n].msg.apiName == n && str[n].msg.funcId in ids && ids[str[n].msg.funcId] == str[n])
    }

    ghost function View(): Funcs
      reads this, ids.Values, str.Values
    {
      Funcs(map k | k in ids :: ids[k].Value(), map n | n in str :: str[n].Value(), num)
    }

    constructor (num: nat)
      requires num < UINT32
      ensures Valid() && View() == Empty(num) && ids == map[]
    {
      ids, str, this.num := map[], map[], num;
    }

    /** A changed provider list shows in both indexes. */
    twostate lemma Shared(id: nat)
      requires old(Valid()) && Valid() && ids == old(ids) && str == old(str) && num == old(num) && id in ids
      requires forall k :: k in ids && k != id ==> ids[k].node == old(ids[k].node)
      ensures View() == Store(old(View()), id, ids[id].msg.apiName, ids[id].Value())
    {
      var f := Store(old(View()), id, ids[id].msg.apiName, ids[id].Value());
      assert View().ids == f.ids;
      forall n | n in str ensures View().str[n] == f.str[n] {
        var k := str[n].msg.funcId;
        assert ids[k] == str[n];
      }
      assert View().str == f.str;
    }

    /** The branch of `PutApi` and `PutMsg` for a known name. */
    method ProvideKnown(uuid: string, name: string)
      requires Valid() && name in str
      modifies ids.Values
      ensures Valid() && View() == Registry.Provide(old(View()), uuid, name)
    {
      var data := str[name];
      data.Provide(uuid);
      Shared(data.msg.funcId);
      if uuid in old(data.node) {
        assert View().ids == old(View()).ids && View().str == old(View()).str;
      }
    }

    /** Replaces the provider list of an entry. */
    method SetProviders(id: nat, node: seq<string>)
      requires Valid() && id in ids
      modifies ids[id]
      ensures Valid() && id in old(View()).ids
      ensures var e := old(View()).ids[id]; View() == Store(old(View()), id, e.msg.apiName, e.(node := node))
    {
      var data := ids[id];
      data.node := node;
      Shared(id);
    }

    /** A new object under both keys is a new entry in both indexes. */
    twostate lemma Added(new data: FuncData)
      requires old(Valid()) && num == data.msg.funcId
      requires ids == old(ids)[data.msg.funcId := data] && str == old(str)[data.msg.apiName := data]
      requires forall k :: k in old(ids) ==> old(ids)[k].node == old(ids[k].node)
      ensures View() == Insert(old(View()), data.Value())
    {
      var f := Insert(old(View()), data.Value());
      assert View().ids == f.ids;
      forall n | n in old(str) ensures old(str)[n].node == old(str[n].node) {
        assert old(ids)[old(str)[n].msg.funcId] == old(str)[n];
      }
      assert View().str == f.str;
    }

    /** The branch for a new name: one object under both keys. */
    method AddNew(uuid: string, msg: FuncMsg, api: FuncApi)
      requires Valid() && num < msg.funcId < UINT32 && msg.apiName !in str
      modifies this
      ensures Valid() && View() == Insert(old(View()), Entry(msg, api, [uuid]))
      ensures fresh(ids.Values - old(ids.Values)) && num == msg.funcId
    {
      var tmp := new FuncData(msg, api, uuid);
      num := msg.funcId;
      ids := ids[msg.funcId := tmp];
      str := str[msg.apiName := tmp];
      Added(tmp);
    }

    method PutApi(uuid: string, arg: FuncApi) returns (r: Option<FuncApi>)
      requires Valid() && num + 1 < UINT32
      modifies this, ids.Values
      ensures Valid() && fresh(ids.Values - old(ids.Values)) && num <= old(num) + 1
      ensures (View(), r) == Registry.PutApi(old(View()), uuid, arg)
    {
      if uuid == "" || arg.name == "" {
        return None;
      }
      if arg.name in str {
        ProvideKnown(uuid, arg.name);
        return Some(arg.(id := str[arg.name].msg.funcId));
      }
      var api := arg.(id := (num + 1) % UINT32);
      AddNew(uuid, MsgOf(api), api);
      r := Some(api);
    }

    method PutMsg(uuid: string, arg: FuncMsg) returns (r: Option<FuncMsg>)
      requires Valid() && num + 1 < UINT32
      modifies this, ids.Values
      ensures Valid() && fresh(ids.Values - old(ids.Values)) && num <= old(num) + 1
      ensures (View(), r) == Registry.PutMsg(old(View()), uuid, arg)
    {
      if uuid == "" || arg.apiName == "" {
        return None;
      }
      if arg.apiName in str {
        ProvideKnown(uuid, arg.apiName);
        return Some(arg.(funcId := str[arg.apiName].msg.funcId));
      }
      var msg := arg.(funcId := (num + 1) % UINT32);
      AddNew(uuid, msg, ApiOf(msg));
      r := Some(msg);
    }
  }

  class NodeRecord {
    const base: NodeInfo
    var syst: Option<SystemStatus>
    var stamp: int
    var state: bool

    constructor (base: NodeInfo, now: int)
      ensures Value() == NodeMsg(base, None, now, true)
    {
      this.base, syst, stamp, state := base, None, now, true;
    }

    ghost function Value(): NodeMsg
      reads this
    {
      NodeMsg(base, syst, stamp, state)
    }
  }

  class NodeMap {
    var uuid: map<string, NodeRecord>

    /** Every record is filed under its node's uuid, so no two keys share one. */
    ghost predicate Valid()
      reads this
    {
      forall u :: u in uuid ==> uuid[u].base.uuid == u && u != ""
    }

    ghost function View(): Table
      reads this, uuid.Values
    {
      map u | u in uuid :: uuid[u].Value()
    }

    constructor ()
      ensures Valid() && View() == map[] && uuid == map[]
    {
      uuid := map[];
    }

    method UpHeartbeat(sys: SystemStatus, now: int) returns (ok: bool)
      requires Valid()
      modifies uuid.Values
      ensures Valid() && (View(), ok) == Watcher.UpHeartbeat(old(View()), sys, now)
    {
      if sys.uuid in uuid {
        var msg := uuid[sys.uuid];
        msg.stamp := now;
        msg.state, msg.syst := true, Some(sys);
        assert View() == old(View())[sys.uuid := msg.Value()];
        return true;
      }
      return false;
    }

    method PutNodeDetail(info: NodeInfo, now: int)
      requires Valid() && info.uuid != ""
      modifies this, uuid.Values
      ensures Valid() && fresh(uuid.Values - old(uuid.Values))
      ensures View() == Watcher.PutNodeDetail(old(View()), info, now)
    {
      if info.uuid in uuid {
        var arg := uuid[info.uuid];
        if arg.base.host == info.host {
          arg.stamp, arg.state := now, true;
          assert View() == old(View())[info.uuid := arg.Value()];
        }
        return;
      }
      var tmp := new NodeRecord(info, now);
      uuid := uuid[info.uuid := tmp];
      assert View() == old(View())[info.uuid := tmp.Value()];
    }

    /** What the sweep has made of the table `was` once `keys` are still to be
        looked at. */
    ghost predicate Swept(was: Table, keys: set<string>, now: int)
      reads this, uuid.Values
    {
      && keys <= uuid.Keys <= was.Keys
      && (forall u :: u in uuid ==> uuid[u].base.uuid == u && uuid[u].Value() == was[u])
      && (forall u :: u in was && u !in uuid ==> Expired(was[u], now))
      && (forall u :: u in uuid && u !in keys ==> !Expired(was[u], now))
    }

    /** One record of the sweep; it is marked before it is dropped. */
    method SweepOne(ghost was: Table, keys: set<string>, key: string, now: int)
      requires Swept(was, keys, now) && key in keys
      modifies this, uuid[key]
      ensures Swept(was, keys - {key}, now) && uuid in {old(uuid), old(uuid) - {key}}
    {
      var v := uuid[key];
      if !v.state || v.stamp < now - CONN_TIMEOUT {
        v.state := false;
        uuid := uuid - {key};
      }
    }

    method ClearNodeExprie(now: int)
      requires Valid()
      modifies this, uuid.Values
      ensures Valid() && uuid.Values <= old(uuid.Values)
      ensures View() == Watcher.ClearNodeExprie(old(View()), now)
    {
      ghost var was := View();
      var keys := uuid.Keys;
      while keys != {}
        invariant Swept(was, keys, now) && uuid.Values <= old(uuid.Values)
        invariant forall u :: u in uuid ==> u != ""
        decreases keys
      {
        var key :| key in keys;
        SweepOne(was, keys, key, now);
        keys := keys - {key};
      }
      assert View() == Watcher.ClearNodeExprie(was, now);
    }
  }

  lemma RegisteredStep(s: State, info: NodeInfo, apis: seq<FuncApi>, now: int)
    requires info.uuid != ""
    ensures Step(s, Event.Registered(info, apis, now)) ==
            (State(Watcher.PutAll(s.funcs, info.uuid, apis).0, Watcher.PutNodeDetail(s.nodes, info, now)),
             Ids(Watcher.PutAll(s.funcs, info.uuid, apis).1))
  {
  }

  class WatchApi {
    const fmsg: FuncMap
    const node: NodeMap

    constructor (num: nat)
      requires num < UINT32
      ensures fresh(fmsg) && fresh(node) && Valid() && View() == Init(num)
    {
      fmsg := new FuncMap(num);
      node := new NodeMap();
    }

    ghost predicate Valid()
      reads fmsg, node
    {
      fmsg.Valid() && node.Valid()
    }

    ghost function View(): State
      reads fmsg, fmsg.ids.Values, fmsg.str.Values, node, node.uuid.Values
    {
      State(fmsg.View(), node.View())
    }

    method PutAll(id: string, apis: seq<FuncApi>) returns (out: seq<FuncApi>)
      requires Valid() && fmsg.num + |apis| < UINT32
      modifies fmsg, fmsg.ids.Values
      ensures Valid() && fresh(fmsg.ids.Values - old(fmsg.ids.Values))
      ensures (fmsg.View(), out) == Watcher.PutAll(old(fmsg.View()), id, apis)
      ensures node.View() == old(node.View())
    {
      out := [];
      for i := 0 to |apis|
        invariant fmsg.Valid() && fresh(fmsg.ids.Values - old(fmsg.ids.Values))
        invariant fmsg.num <= old(fmsg.num) + i
        invariant (fmsg.View(), out) == Watcher.PutAll(old(fmsg.View()), id, apis[..i])
      {
        var r := fmsg.PutApi(id, apis[i]);
        assert apis[..i + 1][..i] == apis[..i];
        out := out + [if r.Some? then r.value else apis[i]];
      }
      assert apis[..|apis|] == apis;
    }

    method Refresh(info: NodeInfo, now: int)
      requires Valid() && info.uuid != ""
      modifies node, node.uuid.Values
      ensures Valid() && fmsg.View() == old(fmsg.View())
      ensures node.View() == Watcher.PutNodeDetail(old(node.View()), info, now)
    {
      node.PutNodeDetail(info, now);
    }

    method Registered(info: NodeInfo, apis: seq<FuncApi>, now: int) returns (answer: Answer)
      requires Valid() && fmsg.num + |apis| < UINT32
      modifies fmsg, fmsg.ids.Values, node, node.uuid.Values
      ensures Valid() && (View(), answer) == Step(old(View()), Event.Registered(info, apis, now))
    {
      if info.uuid == "" {
        return Failed;
      }
      ghost var s := View();
      var out := PutAll(info.uuid, apis);
      Refresh(info, now);
      answer := Ids(out);
      RegisteredStep(s, info, apis, now);
    }

    method Heartbeats(sys: SystemStatus, now: int) returns (answer: Answer)
      requires Valid()
      modifies node.uuid.Values
      ensures Valid() && (View(), answer) == Step(old(View()), Event.Heartbeats(sys, now))
    {
      var ok := node.UpHeartbeat(sys, now);
      answer := if ok then Done else Failed;
    }

    /** The loop of `GetApiConn`: the live providers, and their records. */
    method LiveProviders(uuids: seq<string>) returns (ids: seq<string>, list: seq<NodeInfo>)
      requires node.Valid()
      ensures ids == Alive(uuids, node.View().Keys)
      ensures (forall u :: u in ids ==> u in node.View()) && list == Bases(node.View(), ids)
    {
      ids, list := [], [];
      for i := 0 to |uuids|
        invariant ids == Alive(uuids[..i], node.View().Keys)
        invariant (forall u :: u in ids ==> u in node.View()) && list == Bases(node.View(), ids)
      {
        assert uuids[..i + 1][..i] == uuids[..i];
        if uuids[i] != "" && uuids[i] in node.uuid {
          list := list + [node.uuid[uuids[i]].base];
          ids := ids + [uuids[i]];
        }
      }
      assert uuids[..|uuids|] == uuids;
    }

    method FindApi(fid: nat, name: string) returns (func: Option<FuncMsg>)
      requires Valid()
      ensures func == Find(fmsg.View(), fid, name)
    {
      func := None;
      if fid != 0 {
        if fid in fmsg.ids {
          func := Some(fmsg.ids[fid].msg);
        }
      } else if name != "" {
        if name in fmsg.str {
          func := Some(fmsg.str[name].msg);
        }
      }
    }

    /** Lists the live providers of one entry and forgets the others. */
    method ListAndPrune(id: nat) returns (list: seq<NodeInfo>)
      requires Valid()
      modifies fmsg.ids.Values
      ensures Valid() && node.View() == old(node.View())
      ensures fmsg.View() == Prune(old(fmsg.View()), id, old(node.View()).Keys)
      ensures list == Bases(node.View(), Providers(old(fmsg.View()), node.View(), id))
    {
      hide Alive, FuncMap.Valid;
      list := [];
      if id in fmsg.ids {
        var data := fmsg.ids[id];
        var ids;
        ids, list := LiveProviders(data.node);
        fmsg.SetProviders(id, ids);
      }
    }

    method GetApiConn(fid: nat, name: string, now: int) returns (answer: Answer)
      requires Valid()
      modifies fmsg.ids.Values
      ensures Valid() && (View(), answer) == Step(old(View()), Event.GetApiConn(fid, name, now))
    {
      var func := FindApi(fid, name);
      var list := ListAndPrune(IdOf(func));
      answer := Conns(func, list);
    }
  }
}
