// The check after a concurrent write run
// (benches/benches/write_baseline/{workload,verify}.rs): which final contents
// could some serial order of the acknowledged writes have produced?

module WriteOracle {
  import opened Options
  import TraceHeads

  const SHARED_DOCUMENTS: nat := 8

  datatype Scenario = Creates | SharedUpdates | CountersIndexes

  // An acknowledged operation of a writer.
  datatype Update = Update(writer: nat, op: nat)

  // `tag` is the document's label.
  datatype Doc = Doc(left: string, right: string, tag: string, count: nat)

  function Token(u: Update): string
  {
    "writer-" + TraceHeads.Decimal(u.writer) + "-operation-" + TraceHeads.Decimal(u.op)
  }

  // ----- Serial execution -----

  function Seed(i: nat): Doc
  {
    Doc("initial", "initial", "seed-" + TraceHeads.Decimal(i), 0)
  }

  // What one mutation does to document `i`.
  function Write(sc: Scenario, i: nat, d: Doc, u: Update): Doc
    requires !sc.Creates?
  {
    if u.op % SHARED_DOCUMENTS != i then d
    else if sc.CountersIndexes? then d.(count := d.count + 1, tag := Token(u))
    else if u.writer % 2 == 0 then d.(left := Token(u))
    else d.(right := Token(u))
  }

  // Document `i` after a serial run.
  function Execute(sc: Scenario, run: seq<Update>, i: nat): Doc
    requires !sc.Creates?
  {
    if run == [] then Seed(i) else Write(sc, i, Execute(sc, run[..|run| - 1], i), run[|run| - 1])
  }

  // A writer's own operations, in order.
  function Of(us: seq<Update>, w: nat): seq<Update>
  {
    if us == [] then []
    else Of(us[..|us| - 1], w) + (if us[|us| - 1].writer == w then [us[|us| - 1]] else [])
  }

  // A serial order that keeps every writer's own order: a writer waits for each
  // answer before it sends the next operation.
  ghost predicate Interleaving(run: seq<Update>, successes: seq<Update>)
  {
    forall w :: Of(run, w) == Of(successes, w)
  }

  // ----- The check -----

  datatype Field = Left | Right | Label

  function Value(d: Doc, f: Field): string
  {
    match f
    case Left => d.left
    case Right => d.right
    case Label => d.tag
  }

  // The operations the check holds against one field of one document.
  predicate Counted(u: Update, i: nat, f: Field)
  {
    u.op % SHARED_DOCUMENTS == i && (f.Left? ==> u.writer % 2 == 0) && (f.Right? ==> u.writer % 2 == 1)
  }

  function Selected(us: seq<Update>, i: nat, f: Field): seq<Update>
  {
    if us == [] then []
    else Selected(us[..|us| - 1], i, f) + (if Counted(us[|us| - 1], i, f) then [us[|us| - 1]] else [])
  }

  // Each writer's latest operation: later pairs replace earlier ones.
  function Latest(us: seq<Update>): map<nat, nat>
  {
    if us == [] then map[] else Latest(us[..|us| - 1])[us[|us| - 1].writer := us[|us| - 1].op]
  }

  function Permitted(us: seq<Update>): set<string>
  {
    var latest := Latest(us);
    set w | w in latest :: Token(Update(w, latest[w]))
  }

  predicate LastWrite(us: seq<Update>, actual: string, initial: string)
  {
    if Permitted(us) == {} then actual == initial else actual in Permitted(us)
  }

  predicate FieldAccepted(successes: seq<Update>, i: nat, f: Field, d: Doc)
  {
    LastWrite(Selected(successes, i, f), Value(d, f), Value(Seed(i), f))
  }

  predicate DocAccepted(sc: Scenario, successes: seq<Update>, i: nat, d: Doc)
  {
    if sc.SharedUpdates? then FieldAccepted(successes, i, Left, d) && FieldAccepted(successes, i, Right, d)
    else d.count == |Selected(successes, i, Label)| && FieldAccepted(successes, i, Label, d)
  }

  predicate CreatesAccepted(successes: seq<Update>, docs: seq<Doc>)
  {
    && |docs| == |successes|
    && (set d | d in docs :: d.tag) == (set u | u in successes :: Token(u))
  }

  // ----- Filters -----

  function Except(us: seq<Update>, w: nat): seq<Update>
  {
    if us == [] then []
    else Except(us[..|us| - 1], w) + (if us[|us| - 1].writer == w then [] else [us[|us| - 1]])
  }

  lemma {:induction false} OfAdd(a: seq<Update>, b: seq<Update>, w: nat)
    ensures Of(a + b, w) == Of(a, w) + Of(b, w)
  {
    if b == [] {
      assert a + b == a;
    } else {
      assert (a + b)[..|a + b| - 1] == a + b[..|b| - 1];
      OfAdd(a, b[..|b| - 1], w);
    }
  }

  lemma {:induction false} SelectedAdd(a: seq<Update>, b: seq<Update>, i: nat, f: Field)
    ensures Selected(a + b, i, f) == Selected(a, i, f) + Selected(b, i, f)
  {
    if b == [] {
      assert a + b == a;
    } else {
      assert (a + b)[..|a + b| - 1] == a + b[..|b| - 1];
      SelectedAdd(a, b[..|b| - 1], i, f);
    }
  }

  lemma {:induction false} OfExcept(us: seq<Update>, w: nat, v: nat)
    ensures Of(Except(us, w), v) == if v == w then [] else Of(us, v)
  {
    if us != [] {
      var n := |us| - 1;
      OfExcept(us[..n], w, v);
      OfAdd(Except(us[..n], w), if us[n].writer == w then [] else [us[n]], v);
    }
  }

  lemma {:induction false} OfOf(us: seq<Update>, w: nat, v: nat)
    ensures Of(Of(us, w), v) == if v == w then Of(us, w) else []
  {
    if us != [] {
      var n := |us| - 1;
      OfOf(us[..n], w, v);
      OfAdd(Of(us[..n], w), if us[n].writer == w then [us[n]] else [], v);
    }
  }

  lemma {:induction false} SelectedOf(us: seq<Update>, w: nat, i: nat, f: Field)
    ensures Selected(Of(us, w), i, f) == Of(Selected(us, i, f), w)
  {
    if us != [] {
      var n := |us| - 1;
      SelectedOf(us[..n], w, i, f);
      SelectedAdd(Of(us[..n], w), if us[n].writer == w then [us[n]] else [], i, f);
      OfAdd(Selected(us[..n], i, f), if Counted(us[n], i, f) then [us[n]] else [], w);
    }
  }

  // A writer the field does not count can be dropped.
  lemma {:induction false} SelectedExcept(us: seq<Update>, w: nat, i: nat, f: Field)
    requires (f.Left? && w % 2 == 1) || (f.Right? && w % 2 == 0)
    ensures Selected(Except(us, w), i, f) == Selected(us, i, f) && Selected(Of(us, w), i, f) == []
  {
    if us != [] {
      var n := |us| - 1;
      SelectedExcept(us[..n], w, i, f);
      SelectedAdd(Except(us[..n], w), if us[n].writer == w then [] else [us[n]], i, f);
      SelectedAdd(Of(us[..n], w), if us[n].writer == w then [us[n]] else [], i, f);
    }
  }

  lemma {:induction false} PartsByWriter(us: seq<Update>, w: nat)
    ensures multiset(us) == multiset(Of(us, w)) + multiset(Except(us, w))
  {
    if us != [] {
      var n := |us| - 1;
      assert us == us[..n] + [us[n]];
      PartsByWriter(us[..n], w);
    }
  }

  // An interleaving loses nothing and adds nothing.
  lemma {:induction false} InterleavingIsPermutation(a: seq<Update>, b: seq<Update>)
    requires Interleaving(a, b)
    ensures multiset(a) == multiset(b) && |a| == |b|
    decreases |a|
  {
    if a == [] {
      assert b != [] ==> Of(b, b[|b| - 1].writer) != [];
    } else {
      var w := a[|a| - 1].writer;
      PartsByWriter(a, w);
      PartsByWriter(b, w);
      forall v ensures Of(Except(a, w), v) == Of(Except(b, w), v) {
        OfExcept(a, w, v);
        OfExcept(b, w, v);
        assert Of(a, v) == Of(b, v);
      }
      assert Of(a, w) == Of(b, w) && Of(a, w) != [];
      assert |multiset(a)| == |a| && |multiset(Except(a, w))| == |Except(a, w)|;
      InterleavingIsPermutation(Except(a, w), Except(b, w));
      assert |multiset(b)| == |b|;
    }
  }

  lemma {:induction false} SelectedInterleave(run: seq<Update>, successes: seq<Update>, i: nat, f: Field)
    requires Interleaving(run, successes)
    ensures Interleaving(Selected(run, i, f), Selected(successes, i, f))
  {
    forall w ensures Of(Selected(run, i, f), w) == Of(Selected(successes, i, f), w) {
      SelectedOf(run, w, i, f);
      SelectedOf(successes, w, i, f);
      assert Of(run, w) == Of(successes, w);
    }
  }

  // ----- What serial execution leaves in a field -----

  function Last(us: seq<Update>): Update
    requires us != []
  {
    us[|us| - 1]
  }

  function FinalValue(us: seq<Update>, initial: string): string
  {
    if us == [] then initial else Token(Last(us))
  }

  predicate Uses(sc: Scenario, f: Field)
  {
    if sc.SharedUpdates? then !f.Label? else sc.CountersIndexes? && f.Label?
  }

  lemma {:induction false} WriteField(sc: Scenario, d: Doc, u: Update, i: nat, f: Field)
    requires i < SHARED_DOCUMENTS && Uses(sc, f)
    ensures Value(Write(sc, i, d, u), f) == if Counted(u, i, f) then Token(u) else Value(d, f)
  {
  }

  lemma {:induction false} FinalAppend(us: seq<Update>, u: Update, initial: string)
    ensures FinalValue(us + [u], initial) == Token(u) && FinalValue(us + [], initial) == FinalValue(us, initial)
  {
    assert us + [] == us;
  }

  lemma {:induction false} ExecuteField(sc: Scenario, run: seq<Update>, i: nat, f: Field)
    requires i < SHARED_DOCUMENTS && Uses(sc, f)
    ensures Value(Execute(sc, run, i), f) == FinalValue(Selected(run, i, f), Value(Seed(i), f))
  {
    if run != [] {
      var n := |run| - 1;
      ExecuteField(sc, run[..n], i, f);
      WriteField(sc, Execute(sc, run[..n], i), run[n], i, f);
      FinalAppend(Selected(run[..n], i, f), run[n], Value(Seed(i), f));
    }
  }

  lemma {:induction false} ExecuteCount(run: seq<Update>, i: nat)
    requires i < SHARED_DOCUMENTS
    ensures Execute(CountersIndexes, run, i).count == |Selected(run, i, Label)|
  {
    if run != [] { ExecuteCount(run[..|run| - 1], i); }
  }

  // ----- The permitted values are the reachable ones -----

  lemma {:induction false} LatestIsLast(us: seq<Update>, w: nat)
    ensures w in Latest(us) <==> Of(us, w) != []
    ensures w in Latest(us) ==> Last(Of(us, w)) == Update(w, Latest(us)[w])
  {
    if us != [] { LatestIsLast(us[..|us| - 1], w); }
  }

  lemma {:induction false} PermittedIsEmpty(us: seq<Update>)
    ensures Permitted(us) == {} <==> us == []
  {
    if us != [] {
      var u := Last(us);
      LatestIsLast(us, u.writer);
      assert Token(Update(u.writer, Latest(us)[u.writer])) in Permitted(us);
    }
  }

  // Every serial order leaves a permitted value.
  lemma {:induction false} FinalIsPermitted(run: seq<Update>, us: seq<Update>, initial: string)
    requires Interleaving(run, us)
    ensures LastWrite(us, FinalValue(run, initial), initial)
  {
    PermittedIsEmpty(us);
    InterleavingIsPermutation(run, us);
    if run != [] {
      var u := Last(run);
      assert Of(run, u.writer) == Of(us, u.writer) && Last(Of(run, u.writer)) == u;
      LatestIsLast(us, u.writer);
      assert Token(Update(u.writer, Latest(us)[u.writer])) in Permitted(us);
    }
  }

  // One writer's operations moved behind all others.
  function MoveLast(us: seq<Update>, w: nat): seq<Update>
  {
    Except(us, w) + Of(us, w)
  }

  lemma {:induction false} MoveLastInterleaves(us: seq<Update>, w: nat)
    ensures Interleaving(MoveLast(us, w), us)
  {
    forall v ensures Of(MoveLast(us, w), v) == Of(us, v) {
      OfAdd(Except(us, w), Of(us, w), v);
      OfExcept(us, w, v);
      OfOf(us, w, v);
    }
  }

  // The writer moved last decides the field.
  lemma {:induction false} MoveLastDecides(us: seq<Update>, w: nat, i: nat, f: Field)
    requires Of(Selected(us, i, f), w) != []
    ensures Selected(MoveLast(us, w), i, f) != []
    ensures Last(Selected(MoveLast(us, w), i, f)) == Last(Of(Selected(us, i, f), w))
  {
    SelectedAdd(Except(us, w), Of(us, w), i, f);
    SelectedOf(us, w, i, f);
  }

  lemma {:induction false} MoveLastSpares(us: seq<Update>, w: nat, i: nat, f: Field)
    requires (f.Left? && w % 2 == 1) || (f.Right? && w % 2 == 0)
    ensures Selected(MoveLast(us, w), i, f) == Selected(us, i, f)
  {
    SelectedAdd(Except(us, w), Of(us, w), i, f);
    SelectedExcept(us, w, i, f);
  }

  // The writer that explains an accepted value, if any wrote the field.
  lemma {:induction false} Explains(us: seq<Update>, actual: string, initial: string) returns (w: Option<nat>)
    requires LastWrite(us, actual, initial)
    ensures w.None? ==> us == [] && actual == initial
    ensures w.Some? ==> Of(us, w.value) != [] && actual == Token(Last(Of(us, w.value)))
  {
    PermittedIsEmpty(us);
    if us == [] { return None; }
    var v :| v in Latest(us) && actual == Token(Update(v, Latest(us)[v]));
    LatestIsLast(us, v);
    return Some(v);
  }

  lemma {:induction false} WriterIsCounted(us: seq<Update>, w: nat, i: nat, f: Field)
    requires Of(Selected(us, i, f), w) != []
    ensures (f.Left? ==> w % 2 == 0) && (f.Right? ==> w % 2 == 1)
  {
    if us != [] {
      var n := |us| - 1;
      OfAdd(Selected(us[..n], i, f), if Counted(us[n], i, f) then [us[n]] else [], w);
      if Of(Selected(us[..n], i, f), w) != [] { WriterIsCounted(us[..n], w, i, f); }
    }
  }

  // An order in which an accepted field value is the final one. It leaves the
  // fields of the other parity as they were.
  lemma {:induction false} Arrange(us: seq<Update>, i: nat, f: Field, actual: string, initial: string)
    returns (run: seq<Update>)
    requires LastWrite(Selected(us, i, f), actual, initial)
    ensures Interleaving(run, us) && FinalValue(Selected(run, i, f), initial) == actual
    ensures f.Left? ==> Selected(run, i, Right) == Selected(us, i, Right)
    ensures f.Right? ==> Selected(run, i, Left) == Selected(us, i, Left)
  {
    var w := Explains(Selected(us, i, f), actual, initial);
    if w.None? { return us; }
    run := MoveLast(us, w.value);
    MoveLastInterleaves(us, w.value);
    MoveLastDecides(us, w.value, i, f);
    WriterIsCounted(us, w.value, i, f);
    if f.Left? { MoveLastSpares(us, w.value, i, Right); }
    if f.Right? { MoveLastSpares(us, w.value, i, Left); }
  }

  // ----- The same, position by position -----

  // The operations that write a field of document `i`, as the workload sends
  // them: document by operation number, even writers left and odd ones right, and
  // everyone the label.
  predicate Hits(u: Update, i: nat, f: Field)
  {
    && u.op % 8 == i
    && match f
       case Left => u.writer % 2 == 0
       case Right => u.writer % 2 == 1
       case Label => true
  }

  // Nobody hits the field after position `k`.
  ghost predicate LastHit(us: seq<Update>, k: nat, i: nat, f: Field)
  {
    k < |us| && Hits(us[k], i, f) && forall n :: k < n < |us| ==> !Hits(us[n], i, f)
  }

  // The writer at position `k` does not hit the field again.
  ghost predicate LastOwnHit(us: seq<Update>, k: nat, i: nat, f: Field)
  {
    k < |us| && Hits(us[k], i, f) && forall n :: k < n < |us| && us[n].writer == us[k].writer ==> !Hits(us[n], i, f)
  }

  ghost predicate EndsAs(run: seq<Update>, i: nat, f: Field, initial: string, value: string)
  {
    || (value == initial && forall n :: 0 <= n < |run| ==> !Hits(run[n], i, f))
    || exists k: nat :: LastHit(run, k, i, f) && value == Token(run[k])
  }

  lemma {:induction false} EndsAsStep(before: seq<Update>, u: Update, i: nat, f: Field, initial: string, value: string)
    requires EndsAs(before, i, f, initial, value)
    ensures EndsAs(before + [u], i, f, initial, if Hits(u, i, f) then Token(u) else value)
  {
    var run := before + [u];
    assert run[|before|] == u;
    if Hits(u, i, f) {
      assert LastHit(run, |before|, i, f);
    } else if exists k: nat :: LastHit(before, k, i, f) && value == Token(before[k]) {
      var k: nat :| LastHit(before, k, i, f) && value == Token(before[k]);
      StaysLastHit(before, u, k, i, f);
    } else {
      StaysUnhit(before, u, i, f);
    }
  }

  lemma {:induction false} StaysLastHit(before: seq<Update>, u: Update, k: nat, i: nat, f: Field)
    requires LastHit(before, k, i, f) && !Hits(u, i, f)
    ensures LastHit(before + [u], k, i, f) && (before + [u])[k] == before[k]
  {
  }

  lemma {:induction false} StaysUnhit(before: seq<Update>, u: Update, i: nat, f: Field)
    requires !Hits(u, i, f) && forall n :: 0 <= n < |before| ==> !Hits(before[n], i, f)
    ensures forall n :: 0 <= n < |before + [u]| ==> !Hits((before + [u])[n], i, f)
  {
  }

  lemma {:induction false} HitWrites(sc: Scenario, d: Doc, u: Update, i: nat, f: Field)
    requires i < 8 && ((sc == SharedUpdates && f != Label) || (sc == CountersIndexes && f == Label))
    ensures Value(Write(sc, i, d, u), f) == if Hits(u, i, f) then Token(u) else Value(d, f)
  {
  }

  // A field ends with the last operation that hits it, or as it was seeded.
  lemma {:induction false} FieldIsLastHit(sc: Scenario, run: seq<Update>, i: nat, f: Field)
    requires i < 8 && ((sc == SharedUpdates && f != Label) || (sc == CountersIndexes && f == Label))
    ensures EndsAs(run, i, f, Value(Seed(i), f), Value(Execute(sc, run, i), f))
  {
    if run != [] {
      var n := |run| - 1;
      var d := Execute(sc, run[..n], i);
      FieldIsLastHit(sc, run[..n], i, f);
      HitWrites(sc, d, run[n], i, f);
      EndsAsStep(run[..n], run[n], i, f, Value(Seed(i), f), Value(d, f));
      assert run[..n] + [run[n]] == run;
    }
  }

  // The check accepts of a field exactly the values of operations that were their
  // writer's last on it, and the seed if nobody hit it.
  lemma {:induction false} AcceptsLastOwnHits(successes: seq<Update>, i: nat, f: Field, d: Doc)
    requires i < 8
    ensures FieldAccepted(successes, i, f, d) <==>
            || (Value(d, f) == (if f == Label then "seed-" + TraceHeads.Decimal(i) else "initial") && forall n :: 0 <= n < |successes| ==> !Hits(successes[n], i, f))
            || exists k: nat :: LastOwnHit(successes, k, i, f) && Value(d, f) == Token(successes[k])
  {
    var us := Selected(successes, i, f);
    PermittedIsEmpty(us);
    SelectedIsEmpty(successes, i, f);
    if FieldAccepted(successes, i, f, d) && us != [] {
      var w :| w in Latest(us) && Value(d, f) == Token(Update(w, Latest(us)[w]));
      LatestPlace(successes, i, f, w);
      var k: nat :| OwnedPlace(successes, k, i, f, w) && successes[k] == Update(w, Latest(us)[w]);
      assert LastOwnHit(successes, k, i, f);
    }
    if k: nat :| LastOwnHit(successes, k, i, f) && Value(d, f) == Token(successes[k]) {
      var w := successes[k].writer;
      assert OwnedPlace(successes, k, i, f, w);
      LatestPlace(successes, i, f, w);
      var m: nat :| OwnedPlace(successes, m, i, f, w) && successes[m] == Update(w, Latest(us)[w]);
      OnePlace(successes, k, m, i, f, w);
      assert Token(Update(w, Latest(us)[w])) in Permitted(us);
    }
  }

  lemma {:induction false} OnePlace(us: seq<Update>, k: nat, m: nat, i: nat, f: Field, w: nat)
    requires OwnedPlace(us, k, i, f, w) && OwnedPlace(us, m, i, f, w)
    ensures k == m
  {
  }

  lemma {:induction false} SelectedIsEmpty(us: seq<Update>, i: nat, f: Field)
    requires i < 8
    ensures Selected(us, i, f) == [] <==> forall n :: 0 <= n < |us| ==> !Hits(us[n], i, f)
  {
    if us != [] {
      var n := |us| - 1;
      SelectedIsEmpty(us[..n], i, f);
      assert us == us[..n] + [us[n]];
    }
  }

  // The map keeps, for each writer, the last of its operations that hit the field.
  lemma {:induction false} LatestPlace(us: seq<Update>, i: nat, f: Field, w: nat)
    requires i < 8
    ensures var latest := Latest(Selected(us, i, f));
            && (w in latest <==> exists k: nat :: OwnedPlace(us, k, i, f, w))
            && (w in latest ==> exists k: nat :: OwnedPlace(us, k, i, f, w) && us[k] == Update(w, latest[w]))
  {
    if us != [] {
      var n := |us| - 1;
      var rest := us[..n];
      LatestPlace(rest, i, f, w);
      LatestSelected(us, i, f);
      if Hits(us[n], i, f) && us[n].writer == w {
        assert OwnedPlace(us, n, i, f, w);
      } else {
        forall k: nat ensures OwnedPlace(us, k, i, f, w) <==> OwnedPlace(rest, k, i, f, w) {
          SamePlace(us, k, i, f, w);
        }
      }
    }
  }

  ghost predicate OwnedPlace(us: seq<Update>, k: nat, i: nat, f: Field, w: nat)
  {
    LastOwnHit(us, k, i, f) && us[k].writer == w
  }

  lemma {:induction false} SamePlace(us: seq<Update>, k: nat, i: nat, f: Field, w: nat)
    requires us != [] && !(Hits(us[|us| - 1], i, f) && us[|us| - 1].writer == w)
    ensures OwnedPlace(us, k, i, f, w) <==> OwnedPlace(us[..|us| - 1], k, i, f, w)
    ensures k < |us| - 1 ==> us[k] == us[..|us| - 1][k]
  {
    var n := |us| - 1;
    if OwnedPlace(us[..n], k, i, f, w) {
      assert forall m :: k < m < n ==> us[m] == us[..n][m];
    }
    if OwnedPlace(us, k, i, f, w) {
      assert forall m :: k < m < n ==> us[m] == us[..n][m];
    }
  }

  lemma {:induction false} LatestSelected(us: seq<Update>, i: nat, f: Field)
    requires us != [] && i < 8
    ensures var n := |us| - 1;
            Latest(Selected(us, i, f)) ==
            if Hits(us[n], i, f) then Latest(Selected(us[..n], i, f))[us[n].writer := us[n].op]
            else Latest(Selected(us[..n], i, f))
  {
    var n := |us| - 1;
    var before := Selected(us[..n], i, f);
    if Hits(us[n], i, f) {
      assert (before + [us[n]])[..|before|] == before;
    } else {
      assert before + [] == before;
    }
  }

  // ----- The check is exact, document by document -----

  // The fields the scenario writes.
  predicate Agree(sc: Scenario, a: Doc, b: Doc)
  {
    if sc.SharedUpdates? then a.left == b.left && a.right == b.right else a.tag == b.tag && a.count == b.count
  }

  ghost predicate Produces(sc: Scenario, run: seq<Update>, successes: seq<Update>, i: nat, d: Doc)
    requires !sc.Creates? && i < SHARED_DOCUMENTS
  {
    Interleaving(run, successes) && Agree(sc, Execute(sc, run, i), d)
  }

  ghost predicate Reachable(sc: Scenario, successes: seq<Update>, i: nat, d: Doc)
    requires !sc.Creates? && i < SHARED_DOCUMENTS
  {
    exists run :: Produces(sc, run, successes, i, d)
  }

  // A document passes exactly when some serial order that keeps each writer's
  // own order leaves it as it is.
  lemma {:induction false} CheckIsExact(sc: Scenario, successes: seq<Update>, i: nat, d: Doc)
    requires !sc.Creates? && i < SHARED_DOCUMENTS
    ensures DocAccepted(sc, successes, i, d) <==> Reachable(sc, successes, i, d)
  {
    if DocAccepted(sc, successes, i, d) {
      if sc.SharedUpdates? { SharedIsReached(successes, i, d); } else { CountersAreReached(successes, i, d); }
    }
    if Reachable(sc, successes, i, d) {
      var run :| Produces(sc, run, successes, i, d);
      ReachedIsAccepted(sc, run, successes, i, d);
    }
  }

  lemma {:induction false} FieldOfRun(sc: Scenario, run: seq<Update>, successes: seq<Update>, i: nat, f: Field)
    requires i < SHARED_DOCUMENTS && Uses(sc, f) && Interleaving(run, successes)
    ensures FieldAccepted(successes, i, f, Execute(sc, run, i))
  {
    ExecuteField(sc, run, i, f);
    SelectedInterleave(run, successes, i, f);
    FinalIsPermitted(Selected(run, i, f), Selected(successes, i, f), Value(Seed(i), f));
  }

  // No serial run is rejected.
  lemma {:induction false} ReachedIsAccepted(sc: Scenario, run: seq<Update>, successes: seq<Update>, i: nat, d: Doc)
    requires !sc.Creates? && i < SHARED_DOCUMENTS && Produces(sc, run, successes, i, d)
    ensures DocAccepted(sc, successes, i, d)
  {
    if sc.SharedUpdates? {
      FieldOfRun(sc, run, successes, i, Left);
      FieldOfRun(sc, run, successes, i, Right);
    } else {
      FieldOfRun(sc, run, successes, i, Label);
      ExecuteCount(run, i);
      SelectedInterleave(run, successes, i, Label);
      InterleavingIsPermutation(Selected(run, i, Label), Selected(successes, i, Label));
    }
  }

  lemma {:induction false} SharedIsReached(successes: seq<Update>, i: nat, d: Doc)
    requires i < SHARED_DOCUMENTS && DocAccepted(SharedUpdates, successes, i, d)
    ensures Reachable(SharedUpdates, successes, i, d)
  {
    var first := Arrange(successes, i, Left, d.left, "initial");
    var run := Arrange(first, i, Right, d.right, "initial");
    forall w ensures Of(run, w) == Of(successes, w) {
      assert Of(run, w) == Of(first, w) && Of(first, w) == Of(successes, w);
    }
    ExecuteField(SharedUpdates, run, i, Left);
    ExecuteField(SharedUpdates, run, i, Right);
    assert Produces(SharedUpdates, run, successes, i, d);
  }

  lemma {:induction false} CountersAreReached(successes: seq<Update>, i: nat, d: Doc)
    requires i < SHARED_DOCUMENTS && DocAccepted(CountersIndexes, successes, i, d)
    ensures Reachable(CountersIndexes, successes, i, d)
  {
    var run := Arrange(successes, i, Label, d.tag, Seed(i).tag);
    ExecuteField(CountersIndexes, run, i, Label);
    ExecuteCount(run, i);
    SelectedInterleave(run, successes, i, Label);
    InterleavingIsPermutation(Selected(run, i, Label), Selected(successes, i, Label));
    assert Produces(CountersIndexes, run, successes, i, d);
  }

  // A document as the query returns it.
  datatype Stored = Stored(id: string, doc: Doc)

  function FindDoc(docs: seq<Stored>, id: string): (d: Option<Doc>)
    ensures d.Some? <==> exists k :: 0 <= k < |docs| && docs[k].id == id
  {
    if docs == [] then None else if docs[0].id == id then Some(docs[0].doc) else FindDoc(docs[1..], id)
  }

  // It is the first document with that ID.
  lemma {:induction false} FindsTheFirst(docs: seq<Stored>, id: string) returns (k: nat)
    requires FindDoc(docs, id).Some?
    ensures k < |docs| && docs[k] == Stored(id, FindDoc(docs, id).value) && forall n :: 0 <= n < k ==> docs[n].id != id
  {
    if docs[0].id == id {
      k := 0;
    } else {
      k := FindsTheFirst(docs[1..], id);
      assert forall n :: 0 < n < |docs| ==> docs[n] == docs[1..][n - 1];
      k := k + 1;
    }
  }

  ghost predicate FoundReachable(sc: Scenario, successes: seq<Update>, i: nat, d: Option<Doc>)
    requires !sc.Creates? && i < SHARED_DOCUMENTS
  {
    d.Some? && Reachable(sc, successes, i, d.value)
  }

  // The checks in order, each document looked up by its ID; a missing document or
  // a failed assertion ends the run. It passes exactly when every document is one
  // some serial order leaves behind.
  method CheckShared(sc: Scenario, successes: seq<Update>, ids: seq<string>, docs: seq<Stored>) returns (ok: bool)
    requires !sc.Creates? && |ids| == SHARED_DOCUMENTS
    ensures ok <==>
      && |docs| == SHARED_DOCUMENTS
      && forall i :: 0 <= i < SHARED_DOCUMENTS ==> FoundReachable(sc, successes, i, FindDoc(docs, ids[i]))
  {
    if |docs| != SHARED_DOCUMENTS { return false; }
    for index := 0 to SHARED_DOCUMENTS
      invariant forall i :: 0 <= i < index ==> FoundReachable(sc, successes, i, FindDoc(docs, ids[i]))
    {
      var passes := CheckOne(sc, successes, index, FindDoc(docs, ids[index]));
      if !passes { return false; }
    }
    return true;
  }

  method CheckOne(sc: Scenario, successes: seq<Update>, index: nat, found: Option<Doc>) returns (passes: bool)
    requires !sc.Creates? && index < SHARED_DOCUMENTS
    ensures passes <==> FoundReachable(sc, successes, index, found)
  {
    if found.None? { return false; }
    CheckIsExact(sc, successes, index, found.value);
    passes := DocAccepted(sc, successes, index, found.value);
  }

  // A document that still holds its seed value is rejected once the field has an
  // acknowledged write.
  lemma {:induction false} LostWriteIsRejected(successes: seq<Update>, i: nat, f: Field, d: Doc)
    requires Selected(successes, i, f) != [] && Value(d, f) == Value(Seed(i), f)
    ensures !FieldAccepted(successes, i, f, d)
  {
    PermittedIsEmpty(Selected(successes, i, f));
    forall u: Update ensures Token(u) != Value(Seed(i), f) {
      assert Token(u)[0] == 'w' && Value(Seed(i), f)[0] != 'w';
    }
  }

  // ----- Creates -----

  predicate Distinct<T(==)>(s: seq<T>)
  {
    forall i, j :: 0 <= i < j < |s| ==> s[i] != s[j]
  }

  lemma {:induction false} DecimalHasNoDash(n: nat)
    ensures '-' !in TraceHeads.Decimal(n)
  {
    if n >= 10 { DecimalHasNoDash(n / 10); }
  }

  lemma {:induction false} CutAtDash(a: string, x: string, b: string, y: string)
    requires '-' !in a && '-' !in b && a + "-" + x == b + "-" + y
    ensures a == b && x == y
  {
    var s, t := a + "-" + x, b + "-" + y;
    assert s[|a|] == '-' && t[|b|] == '-';
    assert a == s[..|a|] && b == t[..|b|] && x == s[|a| + 1..] && y == t[|b| + 1..];
  }

  lemma {:induction false} TokenParts(u: Update)
    ensures Token(u)[7..] == TraceHeads.Decimal(u.writer) + "-" + ("operation-" + TraceHeads.Decimal(u.op))
    ensures ("operation-" + TraceHeads.Decimal(u.op))[10..] == TraceHeads.Decimal(u.op)
  {
  }

  // The token spells the writer, then the operation, in decimal.
  lemma {:induction false} TokenSpells(u: Update) returns (writer: string, op: string)
    ensures Token(u) == "writer-" + writer + "-operation-" + op
    ensures TraceHeads.ReadDecimal(writer) == u.writer && TraceHeads.ReadDecimal(op) == u.op
  {
    writer, op := TraceHeads.Decimal(u.writer), TraceHeads.Decimal(u.op);
    TraceHeads.DecimalReads(u.writer);
    TraceHeads.DecimalReads(u.op);
  }

  lemma {:induction false} TokenIsInjective(u: Update, v: Update)
    requires Token(u) == Token(v)
    ensures u == v
  {
    DecimalHasNoDash(u.writer);
    DecimalHasNoDash(v.writer);
    TokenParts(u);
    TokenParts(v);
    CutAtDash(TraceHeads.Decimal(u.writer), "operation-" + TraceHeads.Decimal(u.op),
              TraceHeads.Decimal(v.writer), "operation-" + TraceHeads.Decimal(v.op));
    TraceHeads.DecimalIsInjective(u.writer, v.writer);
    TraceHeads.DecimalIsInjective(u.op, v.op);
  }

  function Tokens(us: seq<Update>): (r: seq<string>)
    ensures |r| == |us| && forall i :: 0 <= i < |us| ==> r[i] == Token(us[i])
  {
    if us == [] then [] else Tokens(us[..|us| - 1]) + [Token(us[|us| - 1])]
  }

  function Labels(docs: seq<Doc>): (r: seq<string>)
    ensures |r| == |docs| && forall i :: 0 <= i < |docs| ==> r[i] == docs[i].tag
  {
    if docs == [] then [] else Labels(docs[..|docs| - 1]) + [docs[|docs| - 1].tag]
  }

  function Elements(s: seq<string>): set<string>
  {
    set x | x in s
  }

  // A sequence has as many elements as it is long exactly when none repeats.
  lemma {:induction false} ElementsCount(s: seq<string>)
    ensures |Elements(s)| <= |s| && (|Elements(s)| == |s| <==> Distinct(s))
  {
    if s != [] {
      var n := |s| - 1;
      ElementsCount(s[..n]);
      assert s == s[..n] + [s[n]];
      assert Elements(s) == Elements(s[..n]) + {s[n]};
    }
  }

  lemma {:induction false} DistinctCounts(s: seq<string>, x: string)
    requires Distinct(s)
    ensures multiset(s)[x] == if x in s then 1 else 0
  {
    if s != [] {
      var n := |s| - 1;
      assert s == s[..n] + [s[n]];
      DistinctCounts(s[..n], x);
    }
  }

  // With as many labels as tokens, equal sets mean equal multisets.
  lemma {:induction false} SameSetSameMultiset(a: seq<string>, b: seq<string>)
    requires Distinct(b) && |a| == |b|
    ensures Elements(a) == Elements(b) <==> multiset(a) == multiset(b)
  {
    ElementsCount(a);
    ElementsCount(b);
    if Elements(a) == Elements(b) {
      forall x ensures multiset(a)[x] == multiset(b)[x] {
        DistinctCounts(a, x);
        DistinctCounts(b, x);
        assert x in a <==> x in Elements(a);
        assert x in b <==> x in Elements(b);
      }
    }
    if multiset(a) == multiset(b) {
      assert forall x :: x in a <==> x in multiset(a);
      assert forall x :: x in b <==> x in multiset(b);
    }
  }

  // The creates check passes exactly when every acknowledged creation is there
  // once and nothing else is: no operation is acknowledged twice.
  lemma {:induction false} CreatesCheckIsExact(successes: seq<Update>, docs: seq<Doc>)
    requires Distinct(successes)
    ensures CreatesAccepted(successes, docs) <==> multiset(Labels(docs)) == multiset(Tokens(successes))
  {
    var labels, tokens := Labels(docs), Tokens(successes);
    assert Distinct(tokens) by {
      forall i, j | 0 <= i < j < |tokens| ensures tokens[i] != tokens[j] {
        if tokens[i] == tokens[j] { TokenIsInjective(successes[i], successes[j]); }
      }
    }
    assert Elements(labels) == (set d | d in docs :: d.tag) by { LabelsElements(docs); }
    assert Elements(tokens) == (set u | u in successes :: Token(u)) by { TokensElements(successes); }
    assert |multiset(labels)| == |labels| && |multiset(tokens)| == |tokens|;
    if |docs| == |successes| { SameSetSameMultiset(labels, tokens); }
  }

  lemma {:induction false} LabelsElements(docs: seq<Doc>)
    ensures Elements(Labels(docs)) == set d | d in docs :: d.tag
  {
    forall x ensures x in Elements(Labels(docs)) <==> x in (set d | d in docs :: d.tag) {
      if x in Labels(docs) {
        var i :| 0 <= i < |docs| && Labels(docs)[i] == x;
        assert docs[i] in docs;
      }
      if d :| d in docs && d.tag == x {
        var i :| 0 <= i < |docs| && docs[i] == d;
        assert Labels(docs)[i] == x;
      }
    }
  }

  lemma {:induction false} TokensElements(us: seq<Update>)
    ensures Elements(Tokens(us)) == set u | u in us :: Token(u)
  {
    forall x ensures x in Elements(Tokens(us)) <==> x in (set u | u in us :: Token(u)) {
      if x in Tokens(us) {
        var i :| 0 <= i < |us| && Tokens(us)[i] == x;
        assert us[i] in us;
      }
      if u :| u in us && Token(u) == x {
        var i :| 0 <= i < |us| && us[i] == u;
        assert Tokens(us)[i] == x;
      }
    }
  }
}
