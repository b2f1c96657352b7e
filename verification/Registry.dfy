/** The watcher's api registry: ids for api names, found by id and by name, with
    the nodes that provide each api. */
module Registry {
  import opened Common

  datatype ApiType = SendApi | CallApi | MultiApi
  datatype Compiler = PROTO | JSON | JSONPB

  datatype FuncMsg = FuncMsg(funcId: nat, apiName: string, servName: string, funcName: string,
                             apiType: ApiType, protocal: Compiler)
  datatype FuncApi = FuncApi(id: nat, name: string, typ: ApiType, kind: Compiler)

  /** The value of one `funcdata`. */
  datatype Entry = Entry(msg: FuncMsg, api: FuncApi, node: seq<string>)

  /** The value of a `funcmap`: two indexes over the entries, and the id counter. */
  datatype Funcs = Funcs(ids: map<nat, Entry>, str: map<string, Entry>, num: nat)

  /** The watcher starts counting behind the reserved ids, or behind the highest id
      in its file. */
  function Empty(start: nat): Funcs {
    Funcs(map[], map[], start)
  }

  function Parts(name: string): (p: seq<string>)
    ensures |p| > 0
  {
    if name == "" then [""]
    else
      var rest := Parts(name[1..]);
      if name[0] == '.' then [""] + rest else [[name[0]] + rest[0]] + rest[1..]
  }

  /** `SplitApiName`: service and function of "service.function", whatever node
      name stands in front. */
  function SplitApiName(name: string): (string, string) {
    var rows := Parts(name);
    if |rows| == 2 then (rows[0], rows[1])
    else if |rows| == 3 then (rows[1], rows[2])
    else ("", "")
  }

  /** The parts are what stands between the dots. */
  lemma {:induction false} PartsOfJoined(a: string, b: string)
    requires '.' !in a
    ensures Parts(a) == [a] && Parts(a + "." + b) == [a] + Parts(b)
  {
    if a == "" {
      assert a + "." + b == "." + b;
    } else {
      PartsOfJoined(a[1..], b);
      assert (a + "." + b)[1..] == a[1..] + "." + b;
      assert [a[0]] + a[1..] == a;
    }
  }

  /** Whether a name comes with its node or without, the registry files it under
      its service and its function. */
  lemma SplitsApiName(node: string, serv: string, func: string)
    requires '.' !in node && '.' !in serv && '.' !in func
    ensures SplitApiName(serv + "." + func) == (serv, func)
    ensures SplitApiName(node + "." + (serv + "." + func)) == (serv, func)
  {
    PartsOfJoined(func, "");
    PartsOfJoined(serv, func);
    PartsOfJoined(node, serv + "." + func);
  }

  ghost function Dots(name: string): nat {
    if name == "" then 0 else Dots(name[1..]) + if name[0] == '.' then 1 else 0
  }

  lemma {:induction false} PartsPerDot(name: string)
    ensures |Parts(name)| == Dots(name) + 1
  {
    if name != "" {
      PartsPerDot(name[1..]);
    }
  }

  /** A name that has not one dot or two has neither service nor function. */
  lemma OtherNamesSplitToNothing(name: string)
    requires Dots(name) != 1 && Dots(name) != 2
    ensures SplitApiName(name) == ("", "")
  {
    PartsPerDot(name);
  }

  /** The two views of one api. */
  function MsgOf(api: FuncApi): FuncMsg {
    var (sname, fname) := SplitApiName(api.name);
    FuncMsg(api.id, api.name, sname, fname, api.typ, api.kind)
  }

  function ApiOf(msg: FuncMsg): FuncApi {
    FuncApi(msg.funcId, msg.apiName, msg.apiType, msg.protocal)
  }

  function NextId(f: Funcs): nat { (f.num + 1) % UINT32 }

  /** Writes one entry under both keys. */
  function Store(f: Funcs, id: nat, name: string, e: Entry): Funcs {
    f.(ids := f.ids[id := e], str := f.str[name := e])
  }

  /** Stores a new entry and remembers its id as the latest. */
  function Insert(f: Funcs, e: Entry): Funcs {
    Store(f, e.msg.funcId, e.msg.apiName, e).(num := e.msg.funcId)
  }

  /** A node provides an api that is known already. */
  function Provide(f: Funcs, uuid: string, name: string): Funcs
    requires name in f.str
  {
    var e := f.str[name];
    if uuid in e.node then f else Store(f, e.msg.funcId, name, e.(node := e.node + [uuid]))
  }

  /** The entry of an api that was not known. */
  function NewEntry(id: nat, uuid: string, arg: FuncApi): Entry {
    Entry(MsgOf(arg.(id := id)), arg.(id := id), [uuid])
  }

  /** `PutApi`: the result is the api with its id filled in, or nothing for the
      error "request data was wrong". */
  function PutApi(f: Funcs, uuid: string, arg: FuncApi): (Funcs, Option<FuncApi>) {
    if uuid == "" || arg.name == "" then (f, None)
    else if arg.name in f.str then
      (Provide(f, uuid, arg.name), Some(arg.(id := f.str[arg.name].msg.funcId)))
    else
      (Insert(f, NewEntry(NextId(f), uuid, arg)), Some(arg.(id := NextId(f))))
  }

  function PutMsg(f: Funcs, uuid: string, arg: FuncMsg): (Funcs, Option<FuncMsg>) {
    if uuid == "" || arg.apiName == "" then (f, None)
    else if arg.apiName in f.str then
      (Provide(f, uuid, arg.apiName), Some(arg.(funcId := f.str[arg.apiName].msg.funcId)))
    else
      var msg := arg.(funcId := NextId(f));
      (Insert(f, Entry(msg, ApiOf(msg), [uuid])), Some(msg))
  }

  /** `GetApiConn` replaces the providers of an api by those still alive. */
  function Prune(f: Funcs, id: nat, alive: set<string>): Funcs {
    if id !in f.ids then f
    else
      var e := f.ids[id];
      Store(f, id, e.msg.apiName, e.(node := Alive(e.node, alive)))
  }

  function Alive(uuids: seq<string>, alive: set<string>): (r: seq<string>) {
    if uuids == [] then []
    else
      var z := |uuids| - 1;
      Alive(uuids[..z], alive) + if uuids[z] in alive then [uuids[z]] else []
  }

  // ---------------------------------------------------------------------------

  ghost predicate NoRepeats(s: seq<string>) {
    forall i, j :: 0 <= i < j < |s| ==> s[i] != s[j]
  }

  ghost predicate EntryHolds(e: Entry) {
    && e.api == ApiOf(e.msg) && e.msg.apiName != ""
    && NoRepeats(e.node) && "" !in e.node
  }

  /** The two indexes hold the same entries, each under its own id and its own
      name; both views of an entry agree; ids lie above the reserved ones and
      were handed out before; providers do not repeat. */
  ghost predicate Consistent(f: Funcs) {
    && WATCH_IN_MAX <= f.num < UINT32
    && (forall k :: k in f.ids ==>
          var e := f.ids[k];
          && e.msg.funcId == k && e.msg.apiName in f.str && f.str[e.msg.apiName] == e
          && WATCH_IN_MAX < k <= f.num && EntryHolds(e))
    && (forall n :: n in f.str ==>
          var e := f.str[n];
          && e.msg.apiName == n && e.msg.funcId in f.ids && f.ids[e.msg.funcId] == e)
  }

  /** Known names keep their id, and ids their name. */
  ghost predicate Keeps(f: Funcs, f': Funcs) {
    && f.num <= f'.num
    && (forall n :: n in f.str ==> n in f'.str && f'.str[n].msg == f.str[n].msg)
    && (forall k :: k in f.ids ==> k in f'.ids && f'.ids[k].msg == f.ids[k].msg)
    && (forall k :: k in f'.ids && k !in f.ids ==> f.num < k <= f'.num)
  }

  lemma AliveIs(uuids: seq<string>, alive: set<string>)
    ensures forall u :: u in Alive(uuids, alive) <==> u in uuids && u in alive
    ensures NoRepeats(uuids) ==> NoRepeats(Alive(uuids, alive))
  {
    if uuids != [] {
      var z := |uuids| - 1;
      AliveIs(uuids[..z], alive);
      assert uuids == uuids[..z] + [uuids[z]];
      if NoRepeats(uuids) {
        assert uuids[z] !in uuids[..z];
      }
    }
  }

  /** Only the providers of one entry change. */
  lemma StoreKeeps(f: Funcs, id: nat, node: seq<string>)
    requires Consistent(f) && id in f.ids && NoRepeats(node) && "" !in node
    ensures var e := f.ids[id];
            var f' := Store(f, id, e.msg.apiName, e.(node := node));
            Consistent(f') && Keeps(f, f')
  {
  }

  lemma InsertKeeps(f: Funcs, e: Entry)
    requires Consistent(f) && f.num + 1 < UINT32 && e.msg.funcId == f.num + 1
    requires e.msg.apiName !in f.str && EntryHolds(e)
    ensures Consistent(Insert(f, e)) && Keeps(f, Insert(f, e))
    ensures e.msg.apiName in Insert(f, e).str && Insert(f, e).str[e.msg.apiName] == e
  {
    assert f.num + 1 !in f.ids;
  }

  lemma ProvideKeeps(f: Funcs, uuid: string, name: string)
    requires Consistent(f) && name in f.str && uuid != ""
    ensures Consistent(Provide(f, uuid, name)) && Keeps(f, Provide(f, uuid, name))
    ensures uuid in Provide(f, uuid, name).str[name].node
  {
    var e := f.str[name];
    assert f.ids[e.msg.funcId] == e;
    if uuid !in e.node {
      StoreKeeps(f, e.msg.funcId, e.node + [uuid]);
    }
  }

  /** What registering an api named `name` for a node leaves behind, and the id
      it reports. */
  ghost predicate Registers(f: Funcs, uuid: string, name: string, f': Funcs, id: nat) {
    && Consistent(f') && Keeps(f, f')
    && name in f'.str && f'.str[name].msg.funcId == id && uuid in f'.str[name].node
    && (name !in f.str ==> id == f.num + 1)
  }

  lemma ProvideRegisters(f: Funcs, uuid: string, name: string)
    requires Consistent(f) && name in f.str && uuid != ""
    ensures Registers(f, uuid, name, Provide(f, uuid, name), f.str[name].msg.funcId)
  {
    ProvideKeeps(f, uuid, name);
  }

  lemma InsertRegisters(f: Funcs, uuid: string, e: Entry)
    requires Consistent(f) && f.num + 1 < UINT32 && e.msg.funcId == f.num + 1
    requires e.msg.apiName !in f.str && e.msg.apiName != "" && e.api == ApiOf(e.msg) && e.node == [uuid] && uuid != ""
    ensures Registers(f, uuid, e.msg.apiName, Insert(f, e), f.num + 1)
  {
    InsertKeeps(f, e);
  }

  lemma PutApiNew(f: Funcs, uuid: string, arg: FuncApi)
    requires Consistent(f) && f.num + 1 < UINT32 && uuid != "" && arg.name != "" && arg.name !in f.str
    ensures PutApi(f, uuid, arg).1 == Some(arg.(id := f.num + 1))
    ensures Registers(f, uuid, arg.name, PutApi(f, uuid, arg).0, f.num + 1)
  {
    hide Consistent, Registers, SplitApiName, Insert;
    InsertRegisters(f, uuid, NewEntry(f.num + 1, uuid, arg));
  }

  lemma PutMsgNew(f: Funcs, uuid: string, arg: FuncMsg)
    requires Consistent(f) && f.num + 1 < UINT32 && uuid != "" && arg.apiName != "" && arg.apiName !in f.str
    ensures PutMsg(f, uuid, arg).1 == Some(arg.(funcId := f.num + 1))
    ensures Registers(f, uuid, arg.apiName, PutMsg(f, uuid, arg).0, f.num + 1)
  {
    var msg := arg.(funcId := f.num + 1);
    InsertRegisters(f, uuid, Entry(msg, ApiOf(msg), [uuid]));
  }

  /** Below the counter's limit, `PutApi` keeps the registry consistent, and gives
      every name one id for good: a known name its old one, a new name an id
      never used before. */
  lemma PutApiKeeps(f: Funcs, uuid: string, arg: FuncApi)
    requires Consistent(f) && f.num + 1 < UINT32
    ensures var (f', r) := PutApi(f, uuid, arg);
            if uuid == "" || arg.name == "" then r == None && f' == f
            else r.Some? && r.value == arg.(id := r.value.id) && Registers(f, uuid, arg.name, f', r.value.id)
  {
    if uuid != "" && arg.name != "" {
      if arg.name in f.str {
        ProvideRegisters(f, uuid, arg.name);
      } else {
        PutApiNew(f, uuid, arg);
      }
    }
  }

  lemma PutMsgKeeps(f: Funcs, uuid: string, arg: FuncMsg)
    requires Consistent(f) && f.num + 1 < UINT32
    ensures var (f', r) := PutMsg(f, uuid, arg);
            if uuid == "" || arg.apiName == "" then r == None && f' == f
            else r.Some? && r.value == arg.(funcId := r.value.funcId)
                 && Registers(f, uuid, arg.apiName, f', r.value.funcId)
  {
    if uuid != "" && arg.apiName != "" {
      if arg.apiName in f.str {
        ProvideRegisters(f, uuid, arg.apiName);
      } else {
        PutMsgNew(f, uuid, arg);
      }
    }
  }

  /** What is filed for an api that a node registers under a new name, with the node's
      own name in front or without: its service and its function apart, its type and
      kind, its new id in both views, and the node as its one provider. */
  lemma NewApiFiled(f: Funcs, uuid: string, arg: FuncApi, node: string, serv: string, func: string)
    requires Consistent(f) && f.num + 1 < UINT32 && uuid != "" && arg.name !in f.str
    requires '.' !in node && '.' !in serv && '.' !in func
    requires arg.name == serv + "." + func || arg.name == node + "." + (serv + "." + func)
    ensures var f' := PutApi(f, uuid, arg).0;
            arg.name in f'.str && f'.str[arg.name] ==
              Entry(FuncMsg(f.num + 1, arg.name, serv, func, arg.typ, arg.kind),
                    FuncApi(f.num + 1, arg.name, arg.typ, arg.kind), [uuid])
  {
    SplitsApiName(node, serv, func);
    hide SplitApiName;
    assert |arg.name| > 0;
  }

  /** The same for `PutMsg`, which takes service and function from the request. */
  lemma NewMsgFiled(f: Funcs, uuid: string, arg: FuncMsg)
    requires Consistent(f) && f.num + 1 < UINT32 && uuid != "" && arg.apiName != "" && arg.apiName !in f.str
    ensures var f' := PutMsg(f, uuid, arg).0;
            arg.apiName in f'.str && f'.str[arg.apiName] ==
              Entry(FuncMsg(f.num + 1, arg.apiName, arg.servName, arg.funcName, arg.apiType, arg.protocal),
                    FuncApi(f.num + 1, arg.apiName, arg.apiType, arg.protocal), [uuid])
  {
  }

  lemma PruneKeeps(f: Funcs, id: nat, alive: set<string>)
    requires Consistent(f)
    ensures Consistent(Prune(f, id, alive)) && Keeps(f, Prune(f, id, alive))
  {
    if id in f.ids {
      AliveIs(f.ids[id].node, alive);
      StoreKeeps(f, id, Alive(f.ids[id].node, alive));
    }
  }
}
