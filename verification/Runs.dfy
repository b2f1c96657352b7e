/** Runs of a step function, and what carries over from one step to a run. */
module Runs {

  /** The state after feeding `ins` to `f`. */
  ghost function After<S, I, O>(f: (S, I) -> (S, O), s: S, ins: seq<I>): S {
    if ins == [] then s else f(After(f, s, ins[..|ins| - 1]), ins[|ins| - 1]).0
  }

  /** The output of step t. */
  ghost function OutAt<S, I, O>(f: (S, I) -> (S, O), s: S, ins: seq<I>, t: nat): O
    requires t < |ins|
  {
    f(After(f, s, ins[..t]), ins[t]).1
  }

  /** One more input. */
  lemma RunSnoc<S, I, O>(f: (S, I) -> (S, O), s: S, ins: seq<I>, x: I)
    ensures After(f, s, ins + [x]) == f(After(f, s, ins), x).0
    ensures OutAt(f, s, ins + [x], |ins|) == f(After(f, s, ins), x).1
    ensures forall t :: 0 <= t < |ins| ==> OutAt(f, s, ins + [x], t) == OutAt(f, s, ins, t)
  {
    var all := ins + [x];
    assert all[..|ins|] == ins;
    forall t | 0 <= t < |ins| ensures OutAt(f, s, all, t) == OutAt(f, s, ins, t) {
      assert all[..t] == ins[..t];
    }
  }

  /** A run, seen from after its first input. */
  lemma {:induction false} RunCons<S, I, O>(f: (S, I) -> (S, O), s: S, x: I, ins: seq<I>)
    ensures After(f, s, [x] + ins) == After(f, f(s, x).0, ins)
    ensures OutAt(f, s, [x] + ins, 0) == f(s, x).1
    ensures forall t :: 0 <= t < |ins| ==> OutAt(f, s, [x] + ins, t + 1) == OutAt(f, f(s, x).0, ins, t)
  {
    if ins == [] {
      assert [x] + ins == [] + [x];
      RunSnoc(f, s, [], x);
    } else {
      var z := |ins| - 1;
      RunCons(f, s, x, ins[..z]);
      PrefixSnoc(ins, z);
      assert [x] + ins == [x] + ins[..z] + [ins[z]];
      RunSnoc(f, s, [x] + ins[..z], ins[z]);
      RunSnoc(f, f(s, x).0, ins[..z], ins[z]);
      forall t | 0 <= t < |ins| ensures OutAt(f, s, [x] + ins, t + 1) == OutAt(f, f(s, x).0, ins, t) {
        assert ins == ins[..z] + [ins[z]];
        if t < z {
          assert OutAt(f, s, [x] + ins[..z], t + 1) == OutAt(f, f(s, x).0, ins[..z], t);
        }
      }
    }
  }

  lemma RunTwice<S, I, O>(f: (S, I) -> (S, O), s: S, x: I, y: I)
    ensures After(f, s, [x, y]) == f(f(s, x).0, y).0 && OutAt(f, s, [x, y], 1) == f(f(s, x).0, y).1
  {
    assert [x, y][..1] == [x] && [x][..0] == [];
    assert After(f, s, [x]) == f(s, x).0;
  }

  lemma PrefixSnoc<T>(s: seq<T>, t: nat)
    requires t < |s|
    ensures s[..t + 1] == s[..t] + [s[t]]
  {
  }

  /** A step-by-step simulation makes whole runs correspond. */
  lemma {:induction false} Simulation<S(!new), A(!new), I, J, O>(
    f: (S, I) -> (S, O), h: (A, J) -> (A, O), rel: (S, A) -> bool,
    s: S, a: A, ins: seq<I>, jns: seq<J>)
    requires |ins| == |jns| && rel(s, a)
    requires forall s', a', i {:trigger f(s', ins[i]), h(a', jns[i])} :: 0 <= i < |ins| && rel(s', a') ==>
               && f(s', ins[i]).1 == h(a', jns[i]).1
               && rel(f(s', ins[i]).0, h(a', jns[i]).0)
    ensures rel(After(f, s, ins), After(h, a, jns))
    ensures forall t :: 0 <= t < |ins| ==> OutAt(f, s, ins, t) == OutAt(h, a, jns, t)
  {
    if ins != [] {
      var z := |ins| - 1;
      var ins', jns' := ins[..z], jns[..z];
      Simulation(f, h, rel, s, a, ins', jns');
      var s', a' := After(f, s, ins'), After(h, a, jns');
      assert f(s', ins[z]).1 == h(a', jns[z]).1;
      forall t | 0 <= t < |ins| ensures OutAt(f, s, ins, t) == OutAt(h, a, jns, t) {
        if t < z {
          assert ins[..t] == ins'[..t] && jns[..t] == jns'[..t];
          assert OutAt(f, s, ins', t) == OutAt(h, a, jns', t);
        }
      }
    }
  }

  /** What every step keeps, every run keeps. */
  lemma {:induction false} Preservation<S(!new), I, O>(f: (S, I) -> (S, O), inv: S -> bool, s: S, ins: seq<I>)
    requires inv(s)
    requires forall s', i {:trigger f(s', ins[i])} :: 0 <= i < |ins| && inv(s') ==> inv(f(s', ins[i]).0)
    ensures inv(After(f, s, ins))
  {
    if ins != [] {
      var z := |ins| - 1;
      Preservation(f, inv, s, ins[..z]);
      assert inv(f(After(f, s, ins[..z]), ins[z]).0);
    }
  }
}
