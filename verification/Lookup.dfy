/** What the watcher's handlers answer in the states it can reach. */
module Lookup {
  import opened Common
  import opened Registry
  import opened Runs
  import opened Watcher

  // ---------------------------------------------------------------------------
  // Which api is found

  ghost predicate FoundById(s: State, fid: nat, answer: Answer) {
    if fid in s.funcs.ids then answer.Conns? && answer.func == Some(s.funcs.ids[fid].msg)
    else answer == Conns(None, [])
  }

  ghost predicate FoundByName(s: State, name: string, answer: Answer) {
    if name in s.funcs.str then answer.Conns? && answer.func == Some(s.funcs.str[name].msg)
    else answer == Conns(None, [])
  }

  /** A nonzero id decides alone, whatever the name; without an id the name does. */
  lemma Found(s: State, fid: nat, name: string, now: int)
    requires Consistent(s.funcs)
    ensures var answer := Step(s, GetApiConn(fid, name, now)).1;
            if fid != 0 then FoundById(s, fid, answer) else FoundByName(s, name, answer)
  {
    assert 0 !in s.funcs.ids && "" !in s.funcs.str;
  }

  // ---------------------------------------------------------------------------
  // Who is listed

  /** The records are those of live nodes that registered `name` at some time, each
      once, in the order of `node`. */
  ghost predicate ListsProviders(s: State, h: History, name: string, node: seq<string>, list: seq<NodeInfo>) {
    && (forall i :: 0 <= i < |list| ==>
          var u := list[i].uuid;
          u in s.nodes && s.nodes[u].base == list[i] && (name, u) in h.ever)
    && (forall i, j :: 0 <= i < j < |list| ==> list[i].uuid != list[j].uuid)
    && (exists idx: seq<nat> :: InOrder(node, list, idx))
    && (forall u :: (name, u) in h.current ==> u in s.nodes && s.nodes[u].base in list)
  }

  ghost predicate InOrder(node: seq<string>, list: seq<NodeInfo>, idx: seq<nat>) {
    && |idx| == |list|
    && (forall k :: 0 <= k < |idx| ==> idx[k] < |node| && node[idx[k]] == list[k].uuid)
    && forall j, k :: 0 <= j < k < |idx| ==> idx[j] < idx[k]
  }

  lemma {:induction false} AliveIndex(uuids: seq<string>, alive: set<string>) returns (idx: seq<nat>)
    ensures |idx| == |Alive(uuids, alive)|
    ensures forall k :: 0 <= k < |idx| ==> idx[k] < |uuids| && uuids[idx[k]] == Alive(uuids, alive)[k]
    ensures forall j, k :: 0 <= j < k < |idx| ==> idx[j] < idx[k]
  {
    if uuids == [] {
      idx := [];
    } else {
      var z := |uuids| - 1;
      var before := AliveIndex(uuids[..z], alive);
      idx := before + if uuids[z] in alive then [z] else [];
    }
  }

  lemma Listing(s: State, h: History, e: Entry)
    requires Holds(s, h) && e.msg.apiName in s.funcs.str && s.funcs.str[e.msg.apiName] == e
    requires forall u :: u in Alive(e.node, s.nodes.Keys) ==> u in s.nodes
    ensures ListsProviders(s, h, e.msg.apiName, e.node, Bases(s.nodes, Alive(e.node, s.nodes.Keys)))
  {
    var name, uuids := e.msg.apiName, Alive(e.node, s.nodes.Keys);
    var list := Bases(s.nodes, uuids);
    assert e.msg.funcId in s.funcs.ids && s.funcs.ids[e.msg.funcId] == e;
    AliveIs(e.node, s.nodes.Keys);
    var idx := AliveIndex(e.node, s.nodes.Keys);
    assert InOrder(e.node, list, idx);
    forall i | 0 <= i < |list| ensures (name, list[i].uuid) in h.ever {
      assert uuids[i] in uuids && list[i].uuid == uuids[i];
      assert Listed(s.funcs, name, uuids[i]);
    }
    forall u | (name, u) in h.current ensures u in s.nodes && s.nodes[u].base in list {
      assert (name, u).0 == name && (name, u).1 == u;
      assert Listed(s.funcs, name, u) && u in uuids;
      var i :| 0 <= i < |uuids| && uuids[i] == u;
      assert list[i] == s.nodes[u].base;
    }
  }

  /** After a lookup the entry lists exactly the nodes the answer did. */
  ghost predicate Pruned(f: Funcs, name: string, list: seq<NodeInfo>) {
    && name in f.str && |f.str[name].node| == |list|
    && forall i :: 0 <= i < |list| ==> f.str[name].node[i] == list[i].uuid
  }

  /** The lookup law, for every state the watcher can reach. A nonzero id finds the api
      filed under it, whatever the name; without an id the name finds the api; nothing
      else is found, and then nothing is listed. For an api that is found the answer
      lists, in provider order and each once, the records of live nodes that
      registered it at some time, and of every node that registered it and was not
      dropped since; and afterwards the api's entry lists just these. */
  lemma LookupAnswers(num: nat, evs: seq<Event>, fid: nat, name: string, now: int)
    requires FittingRun(num, evs)
    ensures var (s: State, h: History) := After(Noted(), Begin(num), evs);
            var (s', answer) := Step(s, GetApiConn(fid, name, now));
            && (if fid != 0 then FoundById(s, fid, answer) else FoundByName(s, name, answer))
            && (answer.func.Some? ==>
                  var n := answer.func.value.apiName;
                  && n in s.funcs.str
                  && ListsProviders(s, h, n, s.funcs.str[n].node, answer.list)
                  && Pruned(s'.funcs, n, answer.list))
  {
    HoldsPrefix(num, evs, |evs|);
    assert evs[..|evs|] == evs;
    var (s: State, h: History) := After(Noted(), Begin(num), evs);
    Found(s, fid, name, now);
    FoundLists(s, h, fid, name, now);
  }

  lemma FoundLists(s: State, h: History, fid: nat, name: string, now: int)
    requires Holds(s, h)
    ensures var (s', answer) := Step(s, GetApiConn(fid, name, now));
            answer.Conns? && answer.func.Some? ==>
              var n := answer.func.value.apiName;
              && n in s.funcs.str
              && ListsProviders(s, h, n, s.funcs.str[n].node, answer.list)
              && Pruned(s'.funcs, n, answer.list)
  {
    var func := Find(s.funcs, fid, name);
    if func.Some? {
      var e := s.funcs.str[func.value.apiName];
      assert s.funcs.ids[func.value.funcId] == e && e.msg == func.value;
      AliveIs(e.node, s.nodes.Keys);
      hide ListsProviders;
      Listing(s, h, e);
    }
  }

  /** So a node that registered an api and was not dropped since is found by all who
      ask for the api by its name, by its id, or by both. */
  lemma RegisteredIsFound(num: nat, evs: seq<Event>, fid: nat, n: string, u: string, now: int)
    requires FittingRun(num, evs)
    requires var (s: State, h: History) := After(Noted(), Begin(num), evs);
             (n, u) in h.current && (fid == 0 || (n in s.funcs.str && fid == s.funcs.str[n].msg.funcId))
    ensures var (s: State, h: History) := After(Noted(), Begin(num), evs);
            var answer := Step(s, GetApiConn(fid, n, now)).1;
            && answer.Conns? && answer.func.Some? && answer.func.value.apiName == n
            && u in s.nodes && s.nodes[u].base in answer.list
  {
    HoldsPrefix(num, evs, |evs|);
    assert evs[..|evs|] == evs;
    var (s: State, h: History) := After(Noted(), Begin(num), evs);
    assert (n, u).0 == n && (n, u).1 == u;
    assert Listed(s.funcs, n, u);
    LookupAnswers(num, evs, fid, n, now);
  }

  // ---------------------------------------------------------------------------
  // The other answers

  /** A registration is refused exactly without a uuid, and changes nothing then. */
  lemma RefusedExactly(s: State, info: NodeInfo, apis: seq<FuncApi>, now: int)
    ensures Step(s, Registered(info, apis, now)).1 == Failed <==> info.uuid == ""
    ensures info.uuid == "" ==> Step(s, Registered(info, apis, now)).0 == s
  {
  }

  /** A heartbeat is accepted exactly from a node in the table. */
  lemma HeartbeatAnswers(s: State, sys: SystemStatus, now: int)
    ensures Step(s, Heartbeats(sys, now)).1 == if sys.uuid in s.nodes then Done else Failed
    ensures sys.uuid !in s.nodes ==> Step(s, Heartbeats(sys, now)).0 == s
  {
  }

  /** Api i as it is answered: as it came, with the id filed under its name. */
  ghost predicate Identified(f: Funcs, api: FuncApi, out: FuncApi) {
    && out.name == api.name && out.typ == api.typ && out.kind == api.kind
    && if api.name == "" then out.id == api.id else api.name in f.str && out.id == f.str[api.name].msg.funcId
  }

  lemma IdentifiedLater(f: Funcs, f': Funcs, api: FuncApi, out: FuncApi)
    requires Identified(f, api, out) && Keeps(f, f')
    ensures Identified(f', api, out)
  {
  }

  lemma {:induction false} AllIdentified(f: Funcs, uuid: string, apis: seq<FuncApi>)
    requires Consistent(f) && uuid != "" && f.num + |apis| < UINT32
    ensures var (f', out) := PutAll(f, uuid, apis);
            |out| == |apis| && forall i :: 0 <= i < |apis| ==> Identified(f', apis[i], out[i])
  {
    if apis != [] {
      var z := |apis| - 1;
      var (before, out) := PutAll(f, uuid, apis[..z]);
      var (now, r) := PutApi(before, uuid, apis[z]);
      assert PutAll(f, uuid, apis) == (now, out + [if r.Some? then r.value else apis[z]]);
      hide PutAll, PutApi, Consistent, Keeps, Identified;
      AllIdentified(f, uuid, apis[..z]);
      PutAllLists(f, uuid, apis[..z]);
      OneIdentified(before, uuid, apis[z]);
      forall i | 0 <= i < z ensures Identified(now, apis[i], out[i]) {
        IdentifiedLater(before, now, apis[i], out[i]);
      }
    }
  }

  lemma OneIdentified(f: Funcs, uuid: string, api: FuncApi)
    requires Consistent(f) && uuid != "" && f.num + 1 < UINT32
    ensures var (f', r) := PutApi(f, uuid, api);
            Keeps(f, f') && Identified(f', api, if r.Some? then r.value else api)
  {
    PutApiKeeps(f, uuid, api);
  }

  /** In every state the watcher can reach, an accepted registration answers with every
      api of the request, in order, each with the id that is filed under its name. */
  lemma RegistrationAnswers(num: nat, evs: seq<Event>, info: NodeInfo, apis: seq<FuncApi>, now: int)
    requires FittingRun(num, evs + [Registered(info, apis, now)]) && info.uuid != ""
    ensures var (s', answer) := Step(After(Noted(), Begin(num), evs).0, Registered(info, apis, now));
            && answer.Ids? && |answer.apis| == |apis|
            && forall i :: 0 <= i < |apis| ==> Identified(s'.funcs, apis[i], answer.apis[i])
  {
    var all := evs + [Registered(info, apis, now)];
    assert all[..|evs|] == evs && all[|evs|] == Registered(info, apis, now);
    HoldsPrefix(num, all, |evs|);
    AllIdentified(After(Noted(), Begin(num), evs).0.funcs, info.uuid, apis);
  }

  /** New names get their ids in the order of the request. */
  lemma {:induction false} IdsInOrder(f: Funcs, uuid: string, apis: seq<FuncApi>, i: nat, j: nat)
    requires Consistent(f) && uuid != "" && f.num + |apis| < UINT32 && i < j < |apis|
    requires apis[i].name != "" && apis[j].name != "" && apis[j].name !in f.str
    requires forall k :: 0 <= k <= i ==> apis[k].name != apis[j].name
    ensures var out := PutAll(f, uuid, apis).1; |out| == |apis| && out[i].id < out[j].id
    decreases |apis|
  {
    var z := |apis| - 1;
    if j < z {
      AnswersSnoc(f, uuid, apis);
      hide PutAll, Consistent;
      IdsInOrder(f, uuid, apis[..z], i, j);
    } else {
      hide PutAll, Consistent;
      LaterId(f, uuid, apis, i);
    }
  }

  lemma AnswersSnoc(f: Funcs, uuid: string, apis: seq<FuncApi>)
    requires apis != []
    ensures var before, out := PutAll(f, uuid, apis[..|apis| - 1]).1, PutAll(f, uuid, apis).1;
            |out| == |before| + 1 && before == out[..|before|]
  {
  }

  /** The id of the last api of a request, against an earlier one's. */
  lemma LaterId(f: Funcs, uuid: string, apis: seq<FuncApi>, i: nat)
    requires Consistent(f) && uuid != "" && f.num + |apis| < UINT32 && i < |apis| - 1
    requires var n := apis[|apis| - 1].name;
             && apis[i].name != "" && n != "" && n !in f.str && forall k :: 0 <= k <= i ==> apis[k].name != n
    ensures var out := PutAll(f, uuid, apis).1; |out| == |apis| && out[i].id < out[|apis| - 1].id
  {
    var n := apis[|apis| - 1].name;
    AllIdentified(f, uuid, apis);
    IdsGrow(f, uuid, apis, i + 1, n);
    assert apis[..i + 1][i] == apis[i];
  }

  /** The apis named in `first` have smaller ids than n. */
  ghost predicate Precede(f: Funcs, first: seq<FuncApi>, n: string) {
    n in f.str ==> forall k :: 0 <= k < |first| && first[k].name != "" ==>
      first[k].name in f.str && f.str[first[k].name].msg.funcId < f.str[n].msg.funcId
  }

  /** A name that comes only after the first m apis gets a larger id than all of them. */
  lemma {:induction false} IdsGrow(f: Funcs, uuid: string, apis: seq<FuncApi>, m: nat, n: string)
    requires Consistent(f) && uuid != "" && f.num + |apis| < UINT32 && m <= |apis|
    requires n !in f.str && forall k :: 0 <= k < m ==> apis[k].name != n
    ensures Precede(PutAll(f, uuid, apis).0, apis[..m], n)
  {
    if m < |apis| {
      var z := |apis| - 1;
      var before := PutAll(f, uuid, apis[..z]).0;
      assert PutAll(f, uuid, apis).0 == PutApi(before, uuid, apis[z]).0;
      assert apis[..z][..m] == apis[..m];
      hide PutAll, PutApi, Consistent, Precede;
      IdsGrow(f, uuid, apis[..z], m, n);
      PutAllLists(f, uuid, apis[..z]);
      FirstNamed(f, uuid, apis[..z], m);
      GrowStep(before, uuid, apis[z], apis[..m], n);
    } else {
      OnlyNamed(f, uuid, apis, n);
    }
  }

  lemma FirstNamed(f: Funcs, uuid: string, apis: seq<FuncApi>, m: nat)
    requires Consistent(f) && uuid != "" && f.num + |apis| < UINT32 && m <= |apis|
    ensures var f' := PutAll(f, uuid, apis).0;
            forall k :: 0 <= k < m && apis[..m][k].name != "" ==> apis[..m][k].name in f'.str
  {
    AllNamed(f, uuid, apis);
  }

  lemma AllNamed(f: Funcs, uuid: string, apis: seq<FuncApi>)
    requires Consistent(f) && uuid != "" && f.num + |apis| < UINT32
    ensures forall k :: 0 <= k < |apis| && apis[k].name != "" ==> apis[k].name in PutAll(f, uuid, apis).0.str
  {
    AllIdentified(f, uuid, apis);
  }

  lemma GrowStep(f: Funcs, uuid: string, api: FuncApi, first: seq<FuncApi>, n: string)
    requires Consistent(f) && uuid != "" && f.num + 1 < UINT32 && Precede(f, first, n)
    requires forall k :: 0 <= k < |first| && first[k].name != "" ==> first[k].name in f.str
    ensures Precede(PutApi(f, uuid, api).0, first, n)
  {
    PutApiKeeps(f, uuid, api);
    assert forall k :: k in f.str ==> f.str[k].msg.funcId <= f.num;
    var f' := PutApi(f, uuid, api).0;
    assert n in f'.str && n !in f.str ==> n == api.name;
    hide Consistent, PutApi;
  }

  lemma {:induction false} OnlyNamed(f: Funcs, uuid: string, apis: seq<FuncApi>, n: string)
    requires n !in f.str && forall k :: 0 <= k < |apis| ==> apis[k].name != n
    ensures n !in PutAll(f, uuid, apis).0.str
  {
    if apis != [] {
      OnlyNamed(f, uuid, apis[..|apis| - 1], n);
    }
  }

  // ---------------------------------------------------------------------------
  // The order of providers

  /** Providers keep their places, and new ones come last. */
  ghost predicate Appends(f: Funcs, f': Funcs) {
    forall n :: n in f.str ==> n in f'.str && f.str[n].node <= f'.str[n].node
  }

  lemma PutApiAppends(f: Funcs, uuid: string, api: FuncApi)
    requires Consistent(f)
    ensures Appends(f, PutApi(f, uuid, api).0)
  {
  }

  lemma {:induction false} RegistrationAppends(f: Funcs, uuid: string, apis: seq<FuncApi>)
    requires Consistent(f) && uuid != "" && f.num + |apis| < UINT32
    ensures Appends(f, PutAll(f, uuid, apis).0)
  {
    if apis != [] {
      var z := |apis| - 1;
      RegistrationAppends(f, uuid, apis[..z]);
      PutAllLists(f, uuid, apis[..z]);
      PutApiAppends(PutAll(f, uuid, apis[..z]).0, uuid, apis[z]);
    }
  }

  // ---------------------------------------------------------------------------
  // The records of nodes

  /** Event t enters node u with `info`, and u stays in the table ever since. */
  ghost predicate EnteredAt(s0: State, evs: seq<Event>, u: string, info: NodeInfo, t: nat) {
    && t < |evs| && evs[t].Registered? && evs[t].info == info && info.uuid == u
    && u !in After(Step, s0, evs[..t]).nodes
    && forall k: nat :: t < k <= |evs| ==> u in After(Step, s0, evs[..k]).nodes
  }

  lemma EnteredStill(s0: State, evs: seq<Event>, ev: Event, u: string, info: NodeInfo, t: nat)
    requires EnteredAt(s0, evs, u, info, t) && u in After(Step, s0, evs + [ev]).nodes
    ensures EnteredAt(s0, evs + [ev], u, info, t)
  {
    hide Step, After;
    var all := evs + [ev];
    assert all[..t] == evs[..t] && all[t] == evs[t];
    forall k: nat | t < k <= |all| ensures u in After(Step, s0, all[..k]).nodes {
      if k <= |evs| {
        assert all[..k] == evs[..k];
      } else {
        assert all[..k] == all;
      }
    }
  }

  lemma EnteredNow(s0: State, evs: seq<Event>, ev: Event, u: string)
    requires u !in After(Step, s0, evs).nodes && u in After(Step, s0, evs + [ev]).nodes
    ensures ev.Registered? && After(Step, s0, evs + [ev]).nodes[u].base == ev.info
    ensures EnteredAt(s0, evs + [ev], u, ev.info, |evs|)
  {
    RunSnoc(Step, s0, evs, ev);
    var all := evs + [ev];
    assert all[..|evs|] == evs && all[..|all|] == all;
  }

  lemma RecordKept(s: State, ev: Event, u: string)
    requires u in s.nodes && u in Step(s, ev).0.nodes
    ensures Step(s, ev).0.nodes[u].base == s.nodes[u].base
  {
  }

  /** The record of a node is the one it registered with when it last entered the
      table, to the letter. */
  lemma {:induction false} RecordIsRegistration(num: nat, evs: seq<Event>, u: string)
    requires u in After(Step, Init(num), evs).nodes
    ensures exists t: nat :: EnteredAt(Init(num), evs, u, After(Step, Init(num), evs).nodes[u].base, t)
  {
    var s0 := Init(num);
    if evs != [] {
      var z := |evs| - 1;
      PrefixSnoc(evs, z);
      assert evs == evs[..z] + [evs[z]];
      RunSnoc(Step, s0, evs[..z], evs[z]);
      var s := After(Step, s0, evs[..z]);
      hide Step, EnteredAt;
      if u in s.nodes {
        RecordIsRegistration(num, evs[..z], u);
        RecordKept(s, evs[z], u);
        var t: nat :| EnteredAt(s0, evs[..z], u, s.nodes[u].base, t);
        EnteredStill(s0, evs[..z], evs[z], u, s.nodes[u].base, t);
      } else {
        EnteredNow(s0, evs[..z], evs[z], u);
      }
    }
  }
}
