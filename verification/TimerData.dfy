/** The timer as the source builds it: maps of shared task objects that the tick
    loop, `run`, `put` and `checkSave` update, proved against the state machine. */
module TimerData {
  import opened Common
  import opened Scheduler
  import opened Ledger

  datatype FunctionType = FuncOnly | FuncArg | FuncBool | FuncArgBool

  predicate Counted(kind: FunctionType) {
    kind.FuncOnly? || kind.FuncArg?
  }

  class TimerFunc {
    const uniq: nat
    const interval: int
    const funcType: FunctionType
    var next: int
    var times: int

    constructor (uniq: nat, next: int, interval: int, times: int, funcType: FunctionType)
      ensures this.uniq == uniq && Value() == Task(next, interval, times, Counted(funcType))
    {
      this.uniq, this.next, this.interval, this.times, this.funcType := uniq, next, interval, times, funcType;
    }

    ghost function Value(): Task
      reads this
    {
      Task(next, interval, times, Counted(funcType))
    }

    /** The part of `run` that works on the task: count the run, and if the task
        goes on, set the next due time. `keep` is what its function returns,
        which only the boolean kinds look at. */
    method Rearm(keep: bool) returns (again: bool)
      modifies this
      ensures again <==> Rearmed(old(Value()), keep).Some?
      ensures again ==> Value() == Rearmed(old(Value()), keep).value
    {
      if Counted(funcType) {
        if times == 0 || times == 1 {
          return false;
        } else if times != -1 {
          times := times - 1;
        }
      } else if !keep {
        return false;
      }
      next := next + interval;
      return true;
    }
  }

  type Objects = map<nat, TimerFunc>

  /** The values of a map of task objects. */
  ghost function Values(m: Objects): Tasks
    reads m.Values
  {
    map k | k in m :: m[k].Value()
  }

  /** Every object is filed under its own id, so two keys never share one, and
      the ids were handed out before. */
  ghost predicate Filed(m: Objects, max: nat) {
    forall k :: k in m ==> m[k].uniq == k && 0 < k <= max
  }

  /** `from'` and `to'` are `from` and `to` after the tasks due by `limit` moved. */
  ghost predicate Moved(from: Objects, to: Objects, limit: int, from': Objects, to': Objects)
    reads from.Values
  {
    && from'.Keys <= from.Keys && to'.Keys == to.Keys + (from.Keys - from'.Keys)
    && (forall k :: k in from' ==> from'[k] == from[k] && from[k].next > limit)
    && (forall k :: k in to ==> to'[k] == to[k])
    && (forall k :: k in from && k !in from' ==> to'[k] == from[k] && from[k].next <= limit)
  }

  lemma MovedFrom(from: Objects, to: Objects, limit: int, from': Objects, to': Objects)
    requires from.Keys !! to.Keys && Moved(from, to, limit, from', to')
    ensures Values(from') == Values(from) - DueBy(Values(from), limit)
  {
  }

  lemma MovedTo(from: Objects, to: Objects, limit: int, from': Objects, to': Objects)
    requires from.Keys !! to.Keys && Moved(from, to, limit, from', to')
    ensures Values(to') == Values(to) + Only(Values(from), DueBy(Values(from), limit))
  {
    var due := DueBy(Values(from), limit);
    assert forall k :: k in due <==> k in from && k !in from';
    assert forall k :: k in from ==> k !in to by {
      assert forall k :: k in from ==> k in from.Keys && k !in to.Keys;
    }
  }

  /** The loop of the tick and of `checkSave`: every task due by `limit` moves
      from one map to the other. */
  method MoveObjects(from: Objects, to: Objects, limit: int, ghost max: nat) returns (from': Objects, to': Objects)
    requires from.Keys !! to.Keys && Filed(from, max) && Filed(to, max)
    ensures Filed(from', max) && Filed(to', max) && Moved(from, to, limit, from', to')
  {
    from', to' := from, to;
    var keys := from.Keys;
    while keys != {}
      invariant keys <= from'.Keys <= from.Keys
      invariant forall k :: k in from' ==> from'[k] == from[k]
      invariant to'.Keys == to.Keys + (from.Keys - from'.Keys)
      invariant forall k :: k in to ==> to'[k] == to[k]
      invariant forall k :: k in from && k !in from' ==> to'[k] == from[k] && from[k].next <= limit
      invariant forall k :: k in from' && k !in keys ==> from[k].next > limit
      decreases keys
    {
      var key :| key in keys;
      keys := keys - {key};
      var v := from'[key];
      if v.next <= limit {
        to' := to'[key := v];
        from' := from' - {key};
      }
    }
  }

  /** The same loop, seen from the tasks' values. */
  method MoveDue(from: Objects, to: Objects, limit: int, ghost max: nat) returns (from': Objects, to': Objects)
    requires from.Keys !! to.Keys && Filed(from, max) && Filed(to, max)
    ensures Filed(from', max) && Filed(to', max) && from'.Keys !! to'.Keys
    ensures from'.Keys + to'.Keys == from.Keys + to.Keys
    ensures Values(from') == Values(from) - DueBy(Values(from), limit)
    ensures Values(to') == Values(to) + Only(Values(from), DueBy(Values(from), limit))
  {
    from', to' := MoveObjects(from, to, limit, max);
    MovedFrom(from, to, limit, from', to');
    MovedTo(from, to, limit, from', to');
  }

  /** Writing the timer's own fields leaves its tasks alone. */
  twostate lemma SameValues(m: Objects)
    requires forall k :: k in m ==> allocated(m[k]) && unchanged(m[k])
    ensures Values(m) == old(Values(m))
  {
    assert forall k :: k in m ==> m[k].Value() == old(m[k].Value());
  }

  lemma TickStep(d: int, s: Timer, now: int)
    ensures Step(d, s, Tick(now)).0 ==
            Timer(s.one - DueBy(s.one, now), s.two, s.fly + Only(s.one, DueBy(s.one, now)), s.uniq,
                  if s.count + 1 >= 4 then 0 else s.count + 1,
                  if s.count + 1 >= 4 then s.saves + 1 else s.saves)
  {
  }

  /** The far tasks due by `limit` become near ones. */
  ghost function Promoted(s: Timer, limit: int): Timer {
    s.(one := s.one + Only(s.two, DueBy(s.two, limit)), two := s.two - DueBy(s.two, limit))
  }

  lemma SaveStep(d: int, s: Timer, now: int, started: Timer, limit: int, end: Timer)
    requires s.saves > 0 && started == s.(saves := s.saves - 1)
    requires limit == now + Horizon(d) && end == Promoted(started, limit)
    ensures end == Step(d, s, Save(now)).0
  {
  }

  class TimerData {
    const d: int
    var one: Objects
    var two: Objects
    /** The tasks whose `run` goroutine was launched. */
    var fly: Objects
    var uniq: nat
    var count: nat
    /** Launched `checkSave` goroutines. */
    var saves: nat

    ghost predicate Valid()
      reads this
    {
      && Filed(one, uniq) && Filed(two, uniq) && Filed(fly, uniq)
      && one.Keys !! two.Keys && one.Keys !! fly.Keys && two.Keys !! fly.Keys
    }

    ghost function View(): Timer
      reads this, one.Values, two.Values, fly.Values
    {
      Timer(Values(one), Values(two), Values(fly), uniq, count, saves)
    }

    constructor (d: int)
      ensures Valid() && View() == START && this.d == d
    {
      this.d := d;
      one, two, fly, uniq, count, saves := map[], map[], map[], 0, 0, 0;
    }

    method PutTask(data: TimerFunc, now: int)
      requires Valid() && data.uniq !in one && data.uniq !in two && data.uniq !in fly && 0 < data.uniq <= uniq
      modifies this`one, this`two
      ensures Valid() && View() == Put(d, old(View()), data.uniq, data.Value(), now)
    {
      if data.next <= now + Horizon(d) {
        one := one[data.uniq := data];
        assert Values(one) == old(Values(one))[data.uniq := data.Value()];
      } else {
        two := two[data.uniq := data];
        assert Values(two) == old(Values(two))[data.uniq := data.Value()];
      }
    }

    /** Every fourth tick launches a `checkSave`. */
    method CountTick()
      requires Valid()
      modifies this`count, this`saves
      ensures Valid()
      ensures View() == old(View()).(
                count := if old(count) + 1 >= 4 then 0 else old(count) + 1,
                saves := if old(count) + 1 >= 4 then old(saves) + 1 else old(saves))
    {
      count := count + 1;
      if count >= 4 {
        saves := saves + 1;
        count := 0;
      }
    }

    /** One tick: count it, then move the due tasks of the near set into flight. */
    method OnTick(now: int)
      requires Valid()
      modifies this
      ensures Valid() && View() == Step(d, old(View()), Tick(now)).0
    {
      TickStep(d, View(), now);
      CountTick();
      var one', fly' := MoveDue(one, fly, now, uniq);
      label moved:
      one, fly := one', fly';
      SameValues@moved(one);
      SameValues@moved(fly);
      SameValues@moved(two);
    }

    /** A launched `checkSave` goroutine starts. */
    method StartSave()
      requires Valid() && saves > 0
      modifies this`saves
      ensures Valid() && View() == old(View()).(saves := old(saves) - 1)
    {
      saves := saves - 1;
    }

    method Promote(limit: int)
      requires Valid()
      modifies this`one, this`two
      ensures Valid()
      ensures View() == Promoted(old(View()), limit)
    {
      var two', one' := MoveDue(two, one, limit, uniq);
      label moved:
      one, two := one', two';
      SameValues@moved(one);
      SameValues@moved(two);
      SameValues@moved(fly);
    }

    /** `checkSave`: promote the far tasks that came within the horizon. */
    method CheckSave(now: int)
      requires Valid() && saves > 0
      modifies this
      ensures Valid() && View() == Step(d, old(View()), Save(now)).0
    {
      ghost var s := View();
      StartSave();
      ghost var started := View();
      var limit := now + Horizon(d);
      Promote(limit);
      SaveStep(d, s, now, started, limit, View());
    }

    /** `run` for a task in flight. */
    method Run(id: nat, keep: bool, now: int)
      requires Valid() && id in fly
      modifies this, fly[id]
      ensures Valid() && View() == Step(d, old(View()), Finish(id, keep, now)).0
    {
      var data := fly[id];
      fly := fly - {id};
      var again := data.Rearm(keep);
      assert View() == old(View()).(fly := old(View()).fly - {id});
      if again {
        PutTask(data, now);
      }
    }

    /** The common end of the add functions. */
    method AddTask(next: int, interval: int, times: int, funcType: FunctionType, now: int) returns (id: nat)
      requires Valid()
      modifies this
      ensures Valid() && id == uniq == old(uniq) + 1
      ensures View() == Step(d, old(View()), Add(Task(next, interval, times, Counted(funcType)), now)).0
    {
      uniq := uniq + 1;
      id := uniq;
      var data := new TimerFunc(id, next, interval, times, funcType);
      assert View() == old(View()).(uniq := id);
      PutTask(data, now);
    }

    /** `AddDurationFunction`, and with an argument `AddDurationArgument`: a run count
        of zero adds nothing, a negative one means forever. The clock is read twice,
        for the due time and for the choice of the set. */
    method AddDuration(duration: int, times: int, argument: bool, created: int, now: int) returns (id: nat)
      requires Valid()
      modifies this
      ensures Valid()
      ensures times == 0 ==> id == 0 && View() == old(View())
      ensures times != 0 ==>
                var ev := Add(Task(created + duration, duration, if times < 0 then -1 else times, true), now);
                Admissible(ev) && id == uniq == old(uniq) + 1 && View() == Step(d, old(View()), ev).0
    {
      if times == 0 {
        return 0;
      }
      var kind := if argument then FuncArg else FuncOnly;
      id := AddTask(created + duration, duration, if times < 0 then -1 else times, kind, now);
    }

    /** `AddDurationBoolean`, and with an argument `AddDurationArgBool`: no run count. */
    method AddDurationBoolean(duration: int, argument: bool, created: int, now: int) returns (id: nat)
      requires Valid()
      modifies this
      ensures Valid() && id == uniq == old(uniq) + 1
      ensures View() == Step(d, old(View()), Add(Task(created + duration, duration, 0, false), now)).0
    {
      id := AddTask(created + duration, duration, 0, if argument then FuncArgBool else FuncBool, now);
    }

    /** `AddTimerRun`, given what `checkTime` made of the stamp. The function runs
        `ran` times before the call returns, and those runs count: what is
        scheduled is the rest of the `times` asked for. */
    method AddTimerRun(when: Option<(int, int)>, times: int, run: bool, now: int)
      returns (ok: bool, id: nat, ran: nat)
      requires Valid()
      modifies this
      ensures Valid() && (ok <==> when.Some? && times != 0)
      ensures ran == if ok && run then 1 else 0
      ensures !ok || (run && times == 1) ==> id == 0 && View() == old(View())
      ensures ok && !(run && times == 1) ==>
                var (next, interval) := when.value;
                var left := if times < 0 then -1 else times - ran;
                var ev := Add(Task(next, interval, left, true), now);
                Admissible(ev) && id == uniq == old(uniq) + 1 && View() == Step(d, old(View()), ev).0
    {
      ok, id, ran := false, 0, 0;
      if when == None || times == 0 {
        return;
      }
      var left := if times < 0 then -1 else times;
      ok := true;
      if run {
        ran := 1;
        if left == 1 {
          return;
        } else if left != -1 {
          left := left - 1;
        }
      }
      id := AddTask(when.value.0, when.value.1, left, FuncArg, now);
    }
  }
}
