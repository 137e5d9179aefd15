// Rewriting that halts: every step turns the first of a list of counts, `1 + n`,
// into any positive number of copies of `n`.

module Shrinking {
  import opened Options

  function Repeat(n: nat, k: nat): (r: seq<nat>)
    ensures |r| == k
  {
    if k == 0 then [] else [n] + Repeat(n, k - 1)
  }

  // Zero counts are left out.
  function Copies(n: nat, k: nat): seq<nat>
  {
    if n == 0 then [] else Repeat(n, k)
  }

  ghost predicate Spends(a: seq<nat>, b: seq<nat>, n: nat, k: nat)
  {
    a != [] && a[0] == 1 + n && k > 0 && b == Copies(n, k) + a[1..]
  }

  ghost predicate Shrinks(a: seq<nat>, b: seq<nat>)
  {
    exists n: nat, k: nat :: Spends(a, b, n, k)
  }

  ghost predicate AlwaysShrinks<T(!new)>(step: T -> Option<T>, counts: T -> seq<nat>)
  {
    forall s :: step(s).Some? ==> Shrinks(counts(s), counts(step(s).value))
  }

  // `n` steps from `s`, and then none.
  ghost predicate HaltsIn<T>(step: T -> Option<T>, s: T, n: nat)
    decreases n
  {
    if n == 0 then step(s).None? else step(s).Some? && HaltsIn(step, step(s).value, n - 1)
  }

  ghost predicate Reaches<T>(step: T -> Option<T>, s: T, n: nat, t: T)
    decreases n
  {
    if n == 0 then s == t else step(s).Some? && Reaches(step, step(s).value, n - 1, t)
  }

  lemma {:induction false} ReachThenHalt<T>(step: T -> Option<T>, s: T, n: nat, t: T, m: nat)
    requires Reaches(step, s, n, t) && HaltsIn(step, t, m)
    ensures HaltsIn(step, s, n + m)
    decreases n
  {
    if n > 0 { ReachThenHalt(step, step(s).value, n - 1, t, m); }
  }

  lemma {:induction false} ReachThenReach<T>(step: T -> Option<T>, s: T, n: nat, t: T, m: nat, u: T)
    requires Reaches(step, s, n, t) && Reaches(step, t, m, u)
    ensures Reaches(step, s, n + m, u)
    decreases n
  {
    if n > 0 { ReachThenReach(step, step(s).value, n - 1, t, m, u); }
  }

  // `n` steps halt, or lead to `t`.
  ghost predicate Ends<T>(step: T -> Option<T>, s: T, halts: bool, n: nat, t: T)
  {
    if halts then HaltsIn(step, s, n) else Reaches(step, s, n, t)
  }

  lemma {:induction false} ReachThenEnd<T>(step: T -> Option<T>, s: T, n: nat, t: T, halts: bool, m: nat, u: T)
    requires Reaches(step, s, n, t) && Ends(step, t, halts, m, u)
    ensures Ends(step, s, halts, n + m, u)
  {
    if halts { ReachThenHalt(step, s, n, t, m); } else { ReachThenReach(step, s, n, t, m, u); }
  }

  lemma {:induction false} HaltsOnce<T>(step: T -> Option<T>, s: T, n: nat, m: nat)
    requires HaltsIn(step, s, n) && HaltsIn(step, s, m)
    ensures n == m
    decreases n
  {
    if n > 0 && m > 0 { HaltsOnce(step, step(s).value, n - 1, m - 1); }
  }

  lemma {:induction false} RepeatFirst(c: nat, k: nat, rest: seq<nat>)
    requires k > 0
    ensures (Repeat(c, k) + rest)[0] == c && (Repeat(c, k) + rest)[1..] == Repeat(c, k - 1) + rest
  {
  }

  // What a step does to a run of `k` equal counts in front.
  lemma {:induction false} SpendFirst(a: seq<nat>, b: seq<nat>, c: nat, k: nat, rest: seq<nat>) returns (m: nat, j: nat)
    requires Shrinks(a, b) && k > 0 && a == Repeat(c, k) + rest
    ensures c == 1 + m && b == Copies(m, j) + (Repeat(c, k - 1) + rest)
  {
    m, j :| Spends(a, b, m, j);
    RepeatFirst(c, k, rest);
  }

  // A run of `k` equal counts in front is worked off, or the rewriting halts on
  // the way. The smaller counts may multiply, so the order is lexicographic.
  lemma {:induction false} WorkOff<T(!new)>(step: T -> Option<T>, counts: T -> seq<nat>, s: T,
                                            c: nat, k: nat, rest: seq<nat>) returns (halts: bool, n: nat, t: T)
    requires AlwaysShrinks(step, counts) && c > 0 && counts(s) == Repeat(c, k) + rest
    ensures Ends(step, s, halts, n, t) && (halts || counts(t) == rest)
    decreases c, k
  {
    if k == 0 {
      assert [] + rest == rest;
      return false, 0, s;
    }
    if step(s).None? { return true, 0, s; }
    var next := step(s).value;
    var m, j := SpendFirst(counts(s), counts(next), c, k, rest);
    var after := Repeat(c, k - 1) + rest;
    if m == 0 {
      assert [] + after == after;
      halts, n, t := WorkOff(step, counts, next, c, k - 1, rest);
      n := n + 1;
    } else {
      var h1, n1, t1 := WorkOff(step, counts, next, m, j, after);
      if h1 { return true, n1 + 1, t1; }
      var h2, n2, t2 := WorkOff(step, counts, t1, c, k - 1, rest);
      ReachThenEnd(step, next, n1, t1, h2, n2, t2);
      halts, n, t := h2, n1 + n2 + 1, t2;
    }
  }

  // Such rewriting halts from every state.
  lemma {:induction false} Terminates<T(!new)>(step: T -> Option<T>, counts: T -> seq<nat>, s: T) returns (n: nat)
    requires AlwaysShrinks(step, counts)
    ensures HaltsIn(step, s, n)
    decreases |counts(s)|
  {
    if step(s).None? { return 0; }
    assert Shrinks(counts(s), counts(step(s).value));
    var c, rest := counts(s)[0], counts(s)[1..];
    assert counts(s) == Repeat(c, 1) + rest;
    var halts, m, t := WorkOff(step, counts, s, c, 1, rest);
    if halts { return m; }
    n := Terminates(step, counts, t);
    ReachThenHalt(step, s, m, t, n);
    n := m + n;
  }

  ghost function StepsFrom<T(!new)>(step: T -> Option<T>, counts: T -> seq<nat>, s: T): (n: nat)
    requires AlwaysShrinks(step, counts)
    ensures HaltsIn(step, s, n)
  {
    assert exists n: nat :: HaltsIn(step, s, n) by { var n := Terminates(step, counts, s); }
    var n: nat :| HaltsIn(step, s, n); n
  }

  // One step fewer from the next state.
  lemma {:induction false} StepsDrop<T(!new)>(step: T -> Option<T>, counts: T -> seq<nat>, s: T)
    requires AlwaysShrinks(step, counts) && step(s).Some?
    ensures StepsFrom(step, counts, s) == 1 + StepsFrom(step, counts, step(s).value)
  {
    HaltsOnce(step, s, StepsFrom(step, counts, s), 1 + StepsFrom(step, counts, step(s).value));
  }
}
