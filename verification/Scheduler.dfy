/** The two-tier timer as a state machine: tasks due within the horizon sit in
    the near set `one`, which every tick scans; later ones wait in `two` until a
    `checkSave` promotes them. */
module Scheduler {
  import opened Common
  import opened Runs

  /** A task: `counted` kinds stop after `times` runs (-1: never), the others when
      their function returns false. Times are milliseconds. */
  datatype Task = Task(next: int, interval: int, times: int, counted: bool)

  type Tasks = map<nat, Task>

  /** `fly` holds the tasks whose `run` goroutine was launched and is not done,
      `count` the ticks since the last `checkSave` launch, `saves` the launched
      `checkSave` goroutines that did not run yet. */
  datatype Timer = Timer(one: Tasks, two: Tasks, fly: Tasks, uniq: nat, count: nat, saves: nat)

  const START := Timer(map[], map[], map[], 0, 0, 0)

  datatype Event =
    | Add(task: Task, now: int)
    | Tick(now: int)
    | Finish(id: nat, keep: bool, now: int)
    | Save(now: int)

  /** A tick is at most one period d after the last one; the horizon is 5 periods. */
  function Horizon(d: int): int { 5 * d }

  function Put(d: int, s: Timer, id: nat, t: Task, now: int): Timer {
    if t.next <= now + Horizon(d) then s.(one := s.one[id := t]) else s.(two := s.two[id := t])
  }

  ghost function DueBy(m: Tasks, now: int): set<nat> {
    set k | k in m && m[k].next <= now
  }

  ghost function Only(m: Tasks, ids: set<nat>): Tasks {
    map k | k in m && k in ids :: m[k]
  }

  /** What `run` leaves to be done: nothing, or the task with its next due time. */
  function Rearmed(t: Task, keep: bool): Option<Task> {
    if t.counted && (t.times == 0 || t.times == 1) then None
    else if !t.counted && !keep then None
    else Some(t.(next := t.next + t.interval,
                 times := if t.counted && t.times != -1 then t.times - 1 else t.times))
  }

  /** One step; the output is the set of tasks whose run it launches. */
  ghost function Step(d: int, s: Timer, ev: Event): (Timer, set<nat>) {
    match ev
    case Add(t, now) => (Put(d, s.(uniq := s.uniq + 1), s.uniq + 1, t, now), {})
    case Tick(now) =>
      var due := DueBy(s.one, now);
      var s' := s.(one := s.one - due, fly := s.fly + Only(s.one, due));
      (if s.count + 1 >= 4 then s'.(count := 0, saves := s.saves + 1) else s'.(count := s.count + 1), due)
    case Finish(id, keep, now) =>
      if id !in s.fly then (s, {})
      else
        var s' := s.(fly := s.fly - {id});
        var t := Rearmed(s.fly[id], keep);
        (if t == None then s' else Put(d, s', id, t.value, now), {})
    case Save(now) =>
      if s.saves == 0 then (s, {})
      else
        var near := DueBy(s.two, now + Horizon(d));
        (s.(one := s.one + Only(s.two, near), two := s.two - near, saves := s.saves - 1), {})
  }

  /** Every task is in one place, under an id handed out before. */
  ghost predicate Placed(s: Timer) {
    && s.one.Keys !! s.two.Keys !! s.fly.Keys
    && forall k :: k in s.one || k in s.two || k in s.fly ==> 0 < k <= s.uniq
  }

  lemma PlacedStep(d: int, s: Timer, ev: Event)
    requires Placed(s)
    ensures Placed(Step(d, s, ev).0)
  {
  }

  // ---------------------------------------------------------------------------
  // The one-set timer it stands for

  datatype Simple = Simple(armed: Tasks, fly: Tasks, uniq: nat)

  /** All armed tasks in one set, all of it scanned by every tick. */
  ghost function SimpleStep(s: Simple, ev: Event): (Simple, set<nat>) {
    match ev
    case Add(t, now) => (s.(uniq := s.uniq + 1, armed := s.armed[s.uniq + 1 := t]), {})
    case Tick(now) =>
      var due := DueBy(s.armed, now);
      (s.(armed := s.armed - due, fly := s.fly + Only(s.armed, due)), due)
    case Finish(id, keep, now) =>
      if id !in s.fly then (s, {})
      else
        var s' := s.(fly := s.fly - {id});
        var t := Rearmed(s.fly[id], keep);
        (if t == None then s' else s'.(armed := s'.armed[id := t.value]), {})
    case Save(now) => (s, {})
  }

  ghost function Merged(s: Timer): Simple {
    Simple(s.one + s.two, s.fly, s.uniq)
  }

  /** What the environment has done so far: the clock, the last tick, the last
      time the far set was checked, and how many ticks a launched `checkSave`
      has been outstanding (0: none). */
  datatype Clock = Clock(now: int, lastTick: int, lastSave: int, age: nat)

  /** The timing the design counts on: the clock does not run backwards, ticks
      are at most d apart, and a `checkSave` is done before the second tick after
      the one that launched it. */
  ghost predicate Timely(d: int, c: Clock, ev: Event) {
    && c.now <= ev.now
    && (ev.Tick? ==> ev.now <= c.lastTick + d && c.age < 2)
  }

  ghost function Watch(c: Clock, s: Timer, ev: Event): Clock {
    match ev
    case Tick(now) =>
      c.(now := now, lastTick := now,
         age := if s.count + 1 >= 4 then 1 else if c.age > 0 then c.age + 1 else 0)
    case Save(now) => if s.saves == 0 then c.(now := now) else c.(now := now, lastSave := now, age := 0)
    case _ => c.(now := ev.now)
  }

  /** The margin: nothing in `two` is due within the horizon of the last check,
      and the last check is less than a horizon before the next tick. */
  ghost predicate Margin(d: int, s: Timer, c: Clock) {
    && d > 0 && Placed(s) && s.count < 4
    && s.saves == (if c.age > 0 then 1 else 0)
    && c.lastSave <= c.now && c.lastTick <= c.now
    && (forall k :: k in s.two ==> s.two[k].next > c.lastSave + Horizon(d))
    && (c.age == 0 ==> c.lastTick <= c.lastSave + s.count * d)
    && (c.age > 0 ==> c.age <= 2 && s.count == c.age - 1 && c.lastTick <= c.lastSave + (3 + c.age) * d)
  }

  lemma MarginTick(d: int, s: Timer, c: Clock, now: int)
    requires Margin(d, s, c) && Timely(d, c, Tick(now))
    ensures Margin(d, Step(d, s, Tick(now)).0, Watch(c, s, Tick(now)))
    ensures DueBy(s.two, now) == {}
  {
    PlacedStep(d, s, Tick(now));
  }

  lemma MarginPut(d: int, s: Timer, c: Clock, id: nat, t: Task, now: int)
    requires Margin(d, s, c) && c.now <= now && 0 < id <= s.uniq
    requires id !in s.one && id !in s.two && id !in s.fly
    ensures Margin(d, Put(d, s, id, t, now), c.(now := now))
  {
  }

  lemma MarginStep(d: int, s: Timer, c: Clock, ev: Event)
    requires Margin(d, s, c) && Timely(d, c, ev)
    ensures Margin(d, Step(d, s, ev).0, Watch(c, s, ev))
  {
    PlacedStep(d, s, ev);
    match ev
    case Tick(now) => MarginTick(d, s, c, now);
    case Add(t, now) => MarginPut(d, s.(uniq := s.uniq + 1), c, s.uniq + 1, t, now);
    case Finish(id, keep, now) =>
      if id in s.fly && Rearmed(s.fly[id], keep).Some? {
        MarginPut(d, s.(fly := s.fly - {id}), c, id, Rearmed(s.fly[id], keep).value, now);
      }
    case Save(now) =>
  }

  lemma MergedPut(d: int, s: Timer, id: nat, t: Task, now: int)
    requires id !in s.one && id !in s.two
    ensures Merged(Put(d, s, id, t, now)) == Merged(s).(armed := Merged(s).armed[id := t])
  {
  }

  lemma MergedTick(d: int, s: Timer, c: Clock, now: int)
    requires Margin(d, s, c) && Timely(d, c, Tick(now))
    ensures (Merged(Step(d, s, Tick(now)).0), Step(d, s, Tick(now)).1) == SimpleStep(Merged(s), Tick(now))
  {
    MarginTick(d, s, c, now);
    forall k | k in s.two ensures s.two[k].next > now {
      assert k !in DueBy(s.two, now);
    }
    DueOfBoth(s.one, s.two, now);
  }

  /** If nothing in b is due, what is due in both is what is due in a. */
  lemma DueOfBoth(a: Tasks, b: Tasks, now: int)
    requires a.Keys !! b.Keys && forall k :: k in b ==> b[k].next > now
    ensures DueBy(a + b, now) == DueBy(a, now)
    ensures (a - DueBy(a, now)) + b == (a + b) - DueBy(a, now)
    ensures Only(a + b, DueBy(a, now)) == Only(a, DueBy(a, now))
  {
    forall k | k in b ensures k !in a && k !in DueBy(a, now) {
      assert k in b.Keys && k !in a.Keys;
    }
  }

  lemma MergedSave(d: int, s: Timer, now: int)
    requires Placed(s)
    ensures Merged(Step(d, s, Save(now)).0) == Merged(s)
  {
    hide DueBy, Only;
    SplitMerges(s.one, s.two, DueBy(s.two, now + Horizon(d)));
  }

  lemma SplitMerges(a: Tasks, b: Tasks, ids: set<nat>)
    requires a.Keys !! b.Keys
    ensures (a + Only(b, ids)) + (b - ids) == a + b
  {
    forall k | k in b ensures k !in a {
      assert k in b.Keys && k !in a.Keys;
    }
  }

  /** One step of the two-tier timer is one step of the one-set timer. */
  lemma MergedStep(d: int, s: Timer, c: Clock, ev: Event)
    requires Margin(d, s, c) && Timely(d, c, ev)
    ensures (Merged(Step(d, s, ev).0), Step(d, s, ev).1) == SimpleStep(Merged(s), ev)
  {
    match ev
    case Tick(now) => MergedTick(d, s, c, now);
    case Add(t, now) =>
      assert s.uniq + 1 !in s.one && s.uniq + 1 !in s.two;
      MergedPut(d, s.(uniq := s.uniq + 1), s.uniq + 1, t, now);
    case Finish(id, keep, now) =>
      if id in s.fly && Rearmed(s.fly[id], keep).Some? {
        assert id in s.fly.Keys && id !in s.one.Keys && id !in s.two.Keys;
        MergedPut(d, s.(fly := s.fly - {id}), id, Rearmed(s.fly[id], keep).value, now);
      }
    case Save(now) => MergedSave(d, s, now);
  }

  // ---------------------------------------------------------------------------
  // Whole runs

  /** The timer next to its clock. */
  ghost function Watched(d: int): ((Timer, Clock), Event) -> ((Timer, Clock), set<nat>) {
    (s: (Timer, Clock), ev: Event) => ((Step(d, s.0, ev).0, Watch(s.1, s.0, ev)), Step(d, s.0, ev).1)
  }

  ghost predicate TimelyRun(d: int, s: (Timer, Clock), evs: seq<Event>) {
    forall t :: 0 <= t < |evs| ==> Timely(d, After(Watched(d), s, evs[..t]).1, evs[t])
  }

  lemma {:induction false} RefinesPrefix(d: int, s: (Timer, Clock), evs: seq<Event>, t: nat)
    requires t <= |evs| && Margin(d, s.0, s.1) && TimelyRun(d, s, evs)
    ensures var now := After(Watched(d), s, evs[..t]);
            Margin(d, now.0, now.1) && Merged(now.0) == After(SimpleStep, Merged(s.0), evs[..t])
  {
    if t > 0 {
      RefinesPrefix(d, s, evs, t - 1);
      assert evs[..t][..t - 1] == evs[..t - 1];
      var now := After(Watched(d), s, evs[..t - 1]);
      MarginStep(d, now.0, now.1, evs[t - 1]);
      MergedStep(d, now.0, now.1, evs[t - 1]);
    }
  }

  /** The scheduler theorem. On every timely run the two-tier timer launches at
      every step exactly the tasks the one-set timer launches: the due tasks of
      the near set are all due tasks, so an armed task is launched by the first
      tick at or after its due time. */
  lemma TwoTiersAreOne(d: int, s: (Timer, Clock), evs: seq<Event>)
    requires Margin(d, s.0, s.1) && TimelyRun(d, s, evs)
    ensures Merged(After(Watched(d), s, evs).0) == After(SimpleStep, Merged(s.0), evs)
    ensures forall t :: 0 <= t < |evs| ==> OutAt(Watched(d), s, evs, t) == OutAt(SimpleStep, Merged(s.0), evs, t)
    ensures forall t :: 0 <= t < |evs| && evs[t].Tick? ==>
              var before := After(Watched(d), s, evs[..t]).0;
              OutAt(Watched(d), s, evs, t) == DueBy(before.one + before.two, evs[t].now)
  {
    forall t | 0 <= t < |evs|
      ensures OutAt(Watched(d), s, evs, t) == OutAt(SimpleStep, Merged(s.0), evs, t)
      ensures evs[t].Tick? ==>
                var before := After(Watched(d), s, evs[..t]).0;
                OutAt(Watched(d), s, evs, t) == DueBy(before.one + before.two, evs[t].now)
    {
      RefinesPrefix(d, s, evs, t);
      var now := After(Watched(d), s, evs[..t]);
      MergedStep(d, now.0, now.1, evs[t]);
    }
    RefinesPrefix(d, s, evs, |evs|);
    assert evs[..|evs|] == evs;
  }

  // ---------------------------------------------------------------------------
  // A single task

  /** Nothing but a tick at or after its due time touches an armed task. */
  lemma StaysArmed(s: Simple, ev: Event, id: nat)
    requires id in s.armed && id <= s.uniq && id !in s.fly
    requires ev.Tick? ==> ev.now < s.armed[id].next
    ensures var (s', out) := SimpleStep(s, ev);
            id in s'.armed && s'.armed[id] == s.armed[id] && id <= s'.uniq && id !in s'.fly && id !in out
  {
  }

  lemma {:induction false} ArmedUntilDue(s: Simple, evs: seq<Event>, t: nat, id: nat)
    requires id in s.armed && id <= s.uniq && id !in s.fly && t <= |evs|
    requires forall u :: 0 <= u < t && evs[u].Tick? ==> evs[u].now < s.armed[id].next
    ensures var now := After(SimpleStep, s, evs[..t]);
            id in now.armed && now.armed[id] == s.armed[id] && id <= now.uniq && id !in now.fly
    ensures forall u :: 0 <= u < t ==> id !in OutAt(SimpleStep, s, evs, u)
  {
    if t > 0 {
      ArmedUntilDue(s, evs, t - 1, id);
      assert evs[..t][..t - 1] == evs[..t - 1];
      StaysArmed(After(SimpleStep, s, evs[..t - 1]), evs[t - 1], id);
    }
  }

  /** An armed task, near or far, is launched by the first tick at or after its
      due time, and by none before. */
  lemma LaunchedAtFirstDueTick(d: int, s: (Timer, Clock), evs: seq<Event>, t: nat, id: nat)
    requires Margin(d, s.0, s.1) && TimelyRun(d, s, evs) && t < |evs| && evs[t].Tick?
    requires id in s.0.one || id in s.0.two
    requires var due := Merged(s.0).armed[id].next;
             due <= evs[t].now && forall u :: 0 <= u < t && evs[u].Tick? ==> evs[u].now < due
    ensures id in OutAt(Watched(d), s, evs, t)
    ensures forall u :: 0 <= u < t ==> id !in OutAt(Watched(d), s, evs, u)
  {
    TwoTiersAreOne(d, s, evs);
    assert id !in s.0.fly by {
      assert id in s.0.one.Keys || id in s.0.two.Keys;
    }
    ArmedUntilDue(Merged(s.0), evs, t, id);
  }

  /** A far task, and k ticks one period apart that find nothing to do while the
      `checkSave` launched by the fourth does not run. */
  ghost function Idle(d: int, k: nat): (Timer, Clock) {
    (Timer(map[], map[1 := Task(6 * d, d, 1, true)], map[], 1, if k < 4 then k else k - 4, if k < 4 then 0 else 1),
     Clock(k * d, k * d, 0, if k < 4 then 0 else k - 3))
  }

  ghost function IdleEvents(d: int): seq<Event> {
    [Add(Task(6 * d, d, 1, true), 0), Tick(d), Tick(2 * d), Tick(3 * d), Tick(4 * d), Tick(5 * d)]
  }

  lemma IdleFirst(d: int)
    requires d > 0
    ensures After(Watched(d), (START, Clock(0, 0, 0, 0)), IdleEvents(d)[..1]) == Idle(d, 0)
  {
    var s0, ev := (START, Clock(0, 0, 0, 0)), Add(Task(6 * d, d, 1, true), 0);
    assert IdleEvents(d)[..1] == [] + [ev];
    assert 6 * d > Horizon(d);
    assert Step(d, START, ev).0 == Idle(d, 0).0;
    assert Watch(s0.1, START, ev) == Idle(d, 0).1;
    assert After(Watched(d), s0, [] + [ev]) == Watched(d)(s0, ev).0;
  }

  /** A tick that finds nothing to do. */
  lemma IdleTick(d: int, k: nat)
    requires d > 0 && 0 < k <= 5
    ensures Watched(d)(Idle(d, k - 1), Tick(k * d)).0 == Idle(d, k)
  {
    var s := Idle(d, k - 1).0;
    assert DueBy(s.one, k * d) == {} && s.one - {} == s.one && s.fly + Only(s.one, {}) == s.fly;
  }

  lemma {:induction false} IdleRun(d: int, k: nat)
    requires d > 0 && k <= 5
    ensures After(Watched(d), (START, Clock(0, 0, 0, 0)), IdleEvents(d)[..k + 1]) == Idle(d, k)
  {
    hide Watched, Idle;
    if k == 0 {
      IdleFirst(d);
    } else {
      IdleRun(d, k - 1);
      IdleTick(d, k);
      var evs := IdleEvents(d);
      assert evs[..k + 1][..k] == evs[..k];
      assert evs[k] == Tick(k * d);
    }
  }

  /** The slack is exactly one tick. With ticks one period apart and a `checkSave`
      that is not done by the second tick after its launch, a task due six
      periods ahead is still in the far set when its due tick comes. */
  lemma OneTickOfSlack(d: int)
    requires d > 0
    ensures var s0 := (START, Clock(0, 0, 0, 0));
            var late := After(Watched(d), s0, IdleEvents(d));
            && Margin(d, s0.0, s0.1) && TimelyRun(d, s0, IdleEvents(d))
            && late.1.lastTick + d == 6 * d && late.0.saves == 1
            && 1 in DueBy(late.0.one + late.0.two, 6 * d)
            && Step(d, late.0, Tick(6 * d)).1 == {}
  {
    var s0, evs := (START, Clock(0, 0, 0, 0)), IdleEvents(d);
    forall t | 0 <= t < |evs| ensures Timely(d, After(Watched(d), s0, evs[..t]).1, evs[t]) {
      if t > 0 {
        IdleRun(d, t - 1);
      } else {
        assert evs[..0] == [];
      }
    }
    IdleRun(d, 5);
    assert evs[..6] == evs;
  }
}
