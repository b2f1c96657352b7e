/** Book-keeping over whole timer runs: no task is lost or duplicated, a finite
    task runs exactly as often as asked, and due times do not drift. None of it
    depends on ticks, runs or promotions being on time. */
module Ledger {
  import opened Common
  import opened Runs
  import opened Scheduler

  /** What was asked for when a task was added, and what happened to it since. */
  datatype Account = Account(first: int, interval: int, total: int, counted: bool, runs: nat, ended: bool)

  type Book = map<nat, Account>

  /** The k-th due time after the first. */
  ghost function Due(first: int, interval: int, k: nat): int {
    if k == 0 then first else Due(first, interval, k - 1) + interval
  }

  lemma {:induction false} DueIs(first: int, interval: int, k: nat)
    ensures Due(first, interval, k) == first + k * interval
  {
    if k > 0 {
      DueIs(first, interval, k - 1);
      assert k * interval == (k - 1) * interval + interval;
    }
  }

  /** `run` calls the function, except for a counted task with no runs left. */
  predicate Calls(t: Task) {
    !(t.counted && t.times == 0)
  }

  ghost function Record(book: Book, s: Timer, ev: Event): Book {
    match ev
    case Add(t, _) => book[s.uniq + 1 := Account(t.next, t.interval, t.times, t.counted, 0, false)]
    case Finish(id, keep, _) =>
      if id in s.fly && id in book then
        var a := book[id];
        book[id := a.(runs := a.runs + (if Calls(s.fly[id]) then 1 else 0), ended := Rearmed(s.fly[id], keep) == None)]
      else book
    case _ => book
  }

  /** The tasks of a timer, wherever they are. */
  ghost function Live(s: Timer): Tasks {
    s.one + s.two + s.fly
  }

  /** A live task agrees with its account: its due time is the first one plus as
      many intervals as it ran, and its remaining runs and its runs add up. */
  ghost predicate Agrees(t: Task, a: Account) {
    && !a.ended && t.interval == a.interval && t.counted == a.counted
    && t.next == Due(a.first, a.interval, a.runs)
    && (t.counted ==> if a.total == -1 then t.times == -1 else t.times >= 1 && t.times + a.runs == a.total)
  }

  /** A task that is gone ran as often as asked, or its function said stop. */
  ghost predicate Settled(a: Account) {
    a.ended && (a.counted ==> a.total >= 1 && a.runs == a.total)
  }

  ghost predicate Balanced(s: Timer, book: Book) {
    && Placed(s)
    && (forall k :: k in Live(s) ==> k in book)
    && (forall k :: k in book ==> 0 < k <= s.uniq)
    && (forall k :: k in book ==> if k in Live(s) then Agrees(Live(s)[k], book[k]) else Settled(book[k]))
  }

  /** The add functions reject a run count of zero and turn any other negative
      count into -1. */
  ghost predicate Admissible(ev: Event) {
    ev.Add? && ev.task.counted ==> ev.task.times == -1 || ev.task.times >= 1
  }

  lemma LivePut(d: int, s: Timer, id: nat, t: Task, now: int)
    requires id !in s.one && id !in s.two && id !in s.fly
    ensures Live(Put(d, s, id, t, now)) == Live(s)[id := t]
  {
  }

  lemma LiveTick(d: int, s: Timer, now: int)
    requires Placed(s)
    ensures Live(Step(d, s, Tick(now)).0) == Live(s)
  {
    var due := DueBy(s.one, now);
    var s' := Step(d, s, Tick(now)).0;
    forall k ensures (k in Live(s') <==> k in Live(s)) && (k in Live(s) ==> Live(s')[k] == Live(s)[k]) {
      assert k in s.one.Keys ==> k !in s.two.Keys && k !in s.fly.Keys;
      assert k in s.two.Keys ==> k !in s.fly.Keys;
    }
  }

  lemma LiveSave(d: int, s: Timer, now: int)
    requires Placed(s)
    ensures Live(Step(d, s, Save(now)).0) == Live(s)
  {
    MergedSave(d, s, now);
  }

  lemma LiveFinish(d: int, s: Timer, id: nat, keep: bool, now: int)
    requires Placed(s) && id in s.fly
    ensures Live(s)[id] == s.fly[id]
    ensures Live(Step(d, s, Finish(id, keep, now)).0) ==
            if Rearmed(s.fly[id], keep) == None then Live(s) - {id} else Live(s)[id := Rearmed(s.fly[id], keep).value]
  {
    assert id in s.fly.Keys && id !in s.one.Keys && id !in s.two.Keys;
    var s' := s.(fly := s.fly - {id});
    assert Live(s') == Live(s) - {id};
    if Rearmed(s.fly[id], keep).Some? {
      LivePut(d, s', id, Rearmed(s.fly[id], keep).value, now);
    }
  }

  lemma BalancedAdd(d: int, s: Timer, book: Book, t: Task, now: int)
    requires Balanced(s, book) && Admissible(Add(t, now))
    ensures Balanced(Step(d, s, Add(t, now)).0, Record(book, s, Add(t, now)))
  {
    PlacedStep(d, s, Add(t, now));
    LivePut(d, s.(uniq := s.uniq + 1), s.uniq + 1, t, now);
    assert Live(s.(uniq := s.uniq + 1)) == Live(s);
    BalancedNew(s, book, Step(d, s, Add(t, now)).0, t);
  }

  lemma BalancedNew(s: Timer, book: Book, s': Timer, t: Task)
    requires Balanced(s, book) && (t.counted ==> t.times == -1 || t.times >= 1)
    requires Placed(s') && s'.uniq == s.uniq + 1 && Live(s') == Live(s)[s'.uniq := t]
    ensures Balanced(s', book[s'.uniq := Account(t.next, t.interval, t.times, t.counted, 0, false)])
  {
  }

  /** One finished run, on the task and on its account. */
  lemma AccountFinish(t: Task, a: Account, keep: bool)
    requires Agrees(t, a)
    ensures var a' := a.(runs := a.runs + (if Calls(t) then 1 else 0), ended := Rearmed(t, keep) == None);
            if Rearmed(t, keep) == None then Settled(a') else Agrees(Rearmed(t, keep).value, a')
  {
  }

  lemma BalancedFinish(d: int, s: Timer, book: Book, id: nat, keep: bool, now: int)
    requires Balanced(s, book) && id in s.fly
    ensures Balanced(Step(d, s, Finish(id, keep, now)).0, Record(book, s, Finish(id, keep, now)))
  {
    hide Agrees, Settled, Due;
    PlacedStep(d, s, Finish(id, keep, now));
    LiveFinish(d, s, id, keep, now);
    AccountFinish(s.fly[id], book[id], keep);
  }

  lemma BalancedStep(d: int, s: Timer, book: Book, ev: Event)
    requires Balanced(s, book) && Admissible(ev)
    ensures Balanced(Step(d, s, ev).0, Record(book, s, ev))
  {
    match ev
    case Add(t, now) => BalancedAdd(d, s, book, t, now);
    case Tick(now) =>
      PlacedStep(d, s, ev);
      LiveTick(d, s, now);
    case Save(now) =>
      PlacedStep(d, s, ev);
      LiveSave(d, s, now);
    case Finish(id, keep, now) =>
      if id in s.fly {
        BalancedFinish(d, s, book, id, keep, now);
      }
  }

  // ---------------------------------------------------------------------------

  const FRESH: (Timer, Book) := (START, map[])

  ghost function Booked(d: int): ((Timer, Book), Event) -> ((Timer, Book), set<nat>) {
    (s: (Timer, Book), ev: Event) => ((Step(d, s.0, ev).0, Record(s.1, s.0, ev)), Step(d, s.0, ev).1)
  }

  lemma BalancedRun(d: int, evs: seq<Event>)
    requires forall ev :: ev in evs ==> Admissible(ev)
    ensures var end := After(Booked(d), FRESH, evs); Balanced(end.0, end.1)
  {
    var f := Booked(d);
    var inv := (s: (Timer, Book)) => Balanced(s.0, s.1);
    forall s, i {:trigger f(s, evs[i])} | 0 <= i < |evs| && inv(s) ensures inv(f(s, evs[i]).0) {
      BalancedStep(d, s.0, s.1, evs[i]);
    }
    Preservation(f, inv, FRESH, evs);
  }

  /** Conservation. In every reachable state, whatever was late: a task that was
      added is in exactly one of the near set, the far set and flight, or it is
      done; runs and remaining runs of a counted task add up to what was asked
      for, so when it is done it ran exactly that often; and a task asked to
      repeat forever is never done. */
  lemma RunsAreConserved(d: int, evs: seq<Event>, id: nat)
    requires forall ev :: ev in evs ==> Admissible(ev)
    requires id in After(Booked(d), FRESH, evs).1
    ensures var (s: Timer, book: Book) := After(Booked(d), FRESH, evs);
            var a := book[id];
            && !(id in s.one && id in s.two) && !(id in s.one && id in s.fly) && !(id in s.two && id in s.fly)
            && (a.ended <==> id !in s.one && id !in s.two && id !in s.fly)
            && (a.counted && a.total == -1 ==> !a.ended)
            && (a.counted && a.total != -1 ==>
                  if a.ended then a.runs == a.total else Live(s)[id].times + a.runs == a.total && a.runs < a.total)
  {
    BalancedRun(d, evs);
    var (s: Timer, book: Book) := After(Booked(d), FRESH, evs);
    assert id in s.one ==> id in s.one.Keys && id !in s.two.Keys && id !in s.fly.Keys;
    assert id in s.two ==> id in s.two.Keys && id !in s.fly.Keys;
  }

  /** No drift. However late ticks, runs and promotions are, the due time of a
      live task is its first due time plus one interval per run. */
  lemma NoDrift(d: int, evs: seq<Event>, id: nat)
    requires forall ev :: ev in evs ==> Admissible(ev)
    requires id in Live(After(Booked(d), FRESH, evs).0)
    ensures var (s: Timer, book: Book) := After(Booked(d), FRESH, evs);
            id in book && Live(s)[id].next == book[id].first + book[id].runs * book[id].interval
  {
    BalancedRun(d, evs);
    var (s: Timer, book: Book) := After(Booked(d), FRESH, evs);
    DueIs(book[id].first, book[id].interval, book[id].runs);
  }

  // ---------------------------------------------------------------------------
  // Tasks that go on as long as their function says so

  /** What the end of a run does to an uncounted task: if its function returned true,
      the task waits in one of the two sets, due one interval later; if it returned
      false, the task is gone. Other tasks stay as they are. */
  lemma UncountedFinish(d: int, s: Timer, id: nat, keep: bool, now: int)
    requires Placed(s) && id in s.fly && !s.fly[id].counted
    ensures var s' := Step(d, s, Finish(id, keep, now)).0;
            && id !in s'.fly && Live(s') - {id} == Live(s) - {id}
            && (keep ==>
                  && (id in s'.one <==> id !in s'.two)
                  && id in Live(s') && Live(s')[id] == s.fly[id].(next := s.fly[id].next + s.fly[id].interval))
            && (!keep ==> id !in Live(s'))
  {
    assert id in s.fly.Keys && id !in s.one.Keys && id !in s.two.Keys;
    LiveFinish(d, s, id, keep, now);
  }

  /** The function of task `id`, in flight, returns false with event t. */
  ghost predicate SaysStop(d: int, evs: seq<Event>, id: nat, t: nat)
    requires t < |evs|
  {
    && evs[t].Finish? && evs[t].id == id && !evs[t].keep
    && id in After(Booked(d), FRESH, evs[..t]).0.fly
  }

  ghost predicate SaidStop(d: int, evs: seq<Event>, id: nat) {
    exists t: nat :: t < |evs| && SaysStop(d, evs, id, t)
  }

  lemma SaidStopSnoc(d: int, evs: seq<Event>, ev: Event, id: nat)
    ensures var s := After(Booked(d), FRESH, evs).0;
            SaidStop(d, evs + [ev], id) <==>
              SaidStop(d, evs, id) || (ev.Finish? && ev.id == id && !ev.keep && id in s.fly)
  {
    hide Booked, After;
    var all := evs + [ev];
    assert all[..|evs|] == evs && all[|evs|] == ev;
    assert forall t :: 0 <= t < |evs| ==> all[..t] == evs[..t] && all[t] == evs[t];
    assert forall t: nat :: t < |evs| ==> (SaysStop(d, all, id, t) <==> SaysStop(d, evs, id, t));
    assert SaysStop(d, all, id, |evs|) <==>
        ev.Finish? && ev.id == id && !ev.keep && id in After(Booked(d), FRESH, evs).0.fly;
  }

  /** Where task `id` should be, given whether its function has said stop. */
  ghost predicate GoesOn(s: Timer, book: Book, id: nat, stopped: bool) {
    if id !in book then !stopped && id !in Live(s)
    else !book[id].counted ==> (id in Live(s) <==> !stopped)
  }

  lemma GoesOnStep(d: int, s: Timer, book: Book, ev: Event, id: nat, stopped: bool)
    requires Balanced(s, book) && Admissible(ev) && GoesOn(s, book, id, stopped)
    ensures GoesOn(Step(d, s, ev).0, Record(book, s, ev), id,
                   stopped || (ev.Finish? && ev.id == id && !ev.keep && id in s.fly))
  {
    match ev
    case Add(t, now) => GoesOnAdd(d, s, book, t, now, id, stopped);
    case Tick(now) => LiveTick(d, s, now);
    case Save(now) => LiveSave(d, s, now);
    case Finish(k, keep, now) =>
      if k in s.fly {
        GoesOnFinish(d, s, book, k, keep, now, id, stopped);
      }
  }

  lemma GoesOnAdd(d: int, s: Timer, book: Book, t: Task, now: int, id: nat, stopped: bool)
    requires Balanced(s, book) && GoesOn(s, book, id, stopped)
    ensures GoesOn(Step(d, s, Add(t, now)).0, Record(book, s, Add(t, now)), id, stopped)
  {
    var s' := s.(uniq := s.uniq + 1);
    assert Live(s') == Live(s);
    LivePut(d, s', s.uniq + 1, t, now);
    assert s.uniq + 1 !in book;
  }

  lemma GoesOnFinish(d: int, s: Timer, book: Book, k: nat, keep: bool, now: int, id: nat, stopped: bool)
    requires Balanced(s, book) && GoesOn(s, book, id, stopped) && k in s.fly
    ensures GoesOn(Step(d, s, Finish(k, keep, now)).0, Record(book, s, Finish(k, keep, now)), id,
                   stopped || (k == id && !keep))
  {
    LiveFinish(d, s, k, keep, now);
    assert k in Live(s) && k in book && Agrees(Live(s)[k], book[k]);
    if k == id && !book[id].counted {
      UncountedFinish(d, s, id, keep, now);
    }
  }

  lemma {:induction false} GoesOnAlways(d: int, evs: seq<Event>, id: nat)
    requires forall ev :: ev in evs ==> Admissible(ev)
    ensures var end := After(Booked(d), FRESH, evs);
            Balanced(end.0, end.1) && GoesOn(end.0, end.1, id, SaidStop(d, evs, id))
  {
    if evs != [] {
      hide Balanced, GoesOn, SaidStop, Admissible;
      var z := |evs| - 1;
      PrefixSnoc(evs, z);
      assert evs == evs[..z] + [evs[z]];
      GoesOnAlways(d, evs[..z], id);
      var now := After(Booked(d), FRESH, evs[..z]);
      BalancedStep(d, now.0, now.1, evs[z]);
      GoesOnStep(d, now.0, now.1, evs[z], id, SaidStop(d, evs[..z], id));
      SaidStopSnoc(d, evs[..z], evs[z], id);
    }
  }

  /** A task of the boolean kinds, once added, is gone exactly if its function returned
      false at the end of one of its runs. */
  lemma UncountedEndsExactly(d: int, evs: seq<Event>, id: nat)
    requires forall ev :: ev in evs ==> Admissible(ev)
    requires var book := After(Booked(d), FRESH, evs).1; id in book && !book[id].counted
    ensures var s := After(Booked(d), FRESH, evs).0;
            (id !in s.one && id !in s.two && id !in s.fly) <==>
              exists t: nat :: t < |evs| && evs[t].Finish? && evs[t].id == id && !evs[t].keep
                               && id in After(Booked(d), FRESH, evs[..t]).0.fly
  {
    GoesOnAlways(d, evs, id);
    var s := After(Booked(d), FRESH, evs).0;
    assert id in Live(s) <==> id in s.one || id in s.two || id in s.fly;
    hide Booked, After;
    assert SaidStop(d, evs, id) <==>
        exists t: nat :: t < |evs| && evs[t].Finish? && evs[t].id == id && !evs[t].keep
                         && id in After(Booked(d), FRESH, evs[..t]).0.fly by {
      if SaidStop(d, evs, id) {
        var t: nat :| t < |evs| && SaysStop(d, evs, id, t);
      }
      if t: nat :| t < |evs| && evs[t].Finish? && evs[t].id == id && !evs[t].keep
                   && id in After(Booked(d), FRESH, evs[..t]).0.fly {
        assert SaysStop(d, evs, id, t);
      }
    }
  }
}
