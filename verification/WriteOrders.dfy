// One order for all documents at once. The check after a concurrent write run
// (benches/benches/write_baseline/verify.rs) judges each document on its own;
// whether a single serial order explains them all is a question of which write
// has to come before which.

module WriteOrders {
  import opened Options
  import opened WriteOracle

  // A writer's operations are acknowledged in the order it sent them.
  ghost predicate InOrder(us: seq<Update>)
  {
    forall i, j :: 0 <= i < j < |us| && us[i].writer == us[j].writer ==> us[i].op < us[j].op
  }

  // `u`'s value is the one its field ended with, and `v` wrote the field too.
  predicate Outlasts(sc: Scenario, docs: seq<Doc>, f: Field, u: Update, v: Update)
    requires |docs| == SHARED_DOCUMENTS
  {
    var i := u.op % SHARED_DOCUMENTS;
    Uses(sc, f) && Counted(u, i, f) && Counted(v, i, f) && u != v && Value(docs[i], f) == Token(u)
  }

  // `u` has to come after `v`: the same writer sent it later, or it outlasts `v`.
  ghost predicate Waits(sc: Scenario, docs: seq<Doc>, u: Update, v: Update)
    requires |docs| == SHARED_DOCUMENTS
  {
    (u.writer == v.writer && v.op < u.op) || exists f :: Outlasts(sc, docs, f, u, v)
  }

  ghost predicate WaitsIn(sc: Scenario, docs: seq<Doc>, s: set<Update>, u: Update)
    requires |docs| == SHARED_DOCUMENTS
  {
    exists v :: v in s && Waits(sc, docs, u, v)
  }

  // Writes of which each has to wait for another of them.
  ghost predicate Knot(sc: Scenario, docs: seq<Doc>, us: seq<Update>, s: set<Update>)
    requires |docs| == SHARED_DOCUMENTS
  {
    s != {} && (forall u :: u in s ==> u in us) && forall u :: u in s ==> WaitsIn(sc, docs, s, u)
  }

  ghost predicate Knotted(sc: Scenario, docs: seq<Doc>, us: seq<Update>)
    requires |docs| == SHARED_DOCUMENTS
  {
    exists s :: Knot(sc, docs, us, s)
  }

  // ----- Knots and circles -----

  function After(c: seq<Update>, k: nat): Update
    requires k < |c|
  {
    if k + 1 < |c| then c[k + 1] else c[0]
  }

  // Each write waits for the next, and the last for the first.
  ghost predicate Cycle(sc: Scenario, docs: seq<Doc>, us: seq<Update>, c: seq<Update>)
    requires |docs| == SHARED_DOCUMENTS
  {
    c != [] && (forall u :: u in c ==> u in us) && forall k :: 0 <= k < |c| ==> Waits(sc, docs, c[k], After(c, k))
  }

  ghost predicate Cyclic(sc: Scenario, docs: seq<Doc>, us: seq<Update>)
    requires |docs| == SHARED_DOCUMENTS
  {
    exists c :: Cycle(sc, docs, us, c)
  }

  lemma {:induction false} CycleIsKnot(sc: Scenario, docs: seq<Doc>, us: seq<Update>, c: seq<Update>)
    requires |docs| == SHARED_DOCUMENTS && Cycle(sc, docs, us, c)
    ensures Knot(sc, docs, us, set u | u in c)
  {
    var s := set u | u in c;
    assert c[0] in s;
    forall u | u in s ensures WaitsIn(sc, docs, s, u) {
      var k :| 0 <= k < |c| && c[k] == u;
      assert Waits(sc, docs, u, After(c, k)) && After(c, k) in c;
    }
  }

  lemma {:induction false} AwaitedIn(sc: Scenario, docs: seq<Doc>, us: seq<Update>, s: set<Update>, u: Update)
    returns (v: Update)
    requires |docs| == SHARED_DOCUMENTS && Knot(sc, docs, us, s) && u in s
    ensures v in s && v in us && Waits(sc, docs, u, v)
  {
    assert WaitsIn(sc, docs, s, u);
    v :| v in s && Waits(sc, docs, u, v);
  }

  ghost predicate Trail(sc: Scenario, docs: seq<Doc>, s: set<Update>, p: seq<Update>)
    requires |docs| == SHARED_DOCUMENTS
  {
    (forall u :: u in p ==> u in s) && forall k :: 0 < k < |p| ==> Waits(sc, docs, p[k - 1], p[k])
  }

  lemma {:induction false} LongTrail(sc: Scenario, docs: seq<Doc>, us: seq<Update>, s: set<Update>, n: nat)
    returns (p: seq<Update>)
    requires |docs| == SHARED_DOCUMENTS && Knot(sc, docs, us, s)
    ensures |p| == n + 1 && Trail(sc, docs, s, p)
    decreases n
  {
    if n == 0 {
      var u :| u in s;
      p := [u];
    } else {
      var q := LongTrail(sc, docs, us, s, n - 1);
      var v := AwaitedIn(sc, docs, us, s, q[n - 1]);
      p := q + [v];
    }
  }

  lemma {:induction false} Pigeonhole(p: seq<Update>, s: set<Update>) returns (i: nat, j: nat)
    requires (forall u :: u in p ==> u in s) && |p| > |s|
    ensures i < j < |p| && p[i] == p[j]
    decreases |p|
  {
    var n := |p| - 1;
    if k :| 0 <= k < n && p[k] == p[n] {
      return k, n;
    }
    assert p[n] in p;
    i, j := Pigeonhole(p[..n], s - {p[n]});
  }

  lemma {:induction false} KnotHasCycle(sc: Scenario, docs: seq<Doc>, us: seq<Update>, s: set<Update>)
    returns (c: seq<Update>)
    requires |docs| == SHARED_DOCUMENTS && Knot(sc, docs, us, s)
    ensures Cycle(sc, docs, us, c)
  {
    var p := LongTrail(sc, docs, us, s, |s|);
    var i, j := Pigeonhole(p, s);
    c := p[i..j];
    forall k | 0 <= k < |c| ensures Waits(sc, docs, c[k], After(c, k)) {
      assert c[k] == p[i + k] && After(c, k) == p[i + k + 1];
    }
  }

  lemma {:induction false} CyclicIffKnotted(sc: Scenario, docs: seq<Doc>, us: seq<Update>)
    requires |docs| == SHARED_DOCUMENTS
    ensures Cyclic(sc, docs, us) <==> Knotted(sc, docs, us)
  {
    if c :| Cycle(sc, docs, us, c) { CycleIsKnot(sc, docs, us, c); }
    if s :| Knot(sc, docs, us, s) { var c := KnotHasCycle(sc, docs, us, s); }
  }

  // ----- An order without a wait in the wrong direction -----

  ghost predicate Respects(sc: Scenario, docs: seq<Doc>, run: seq<Update>)
    requires |docs| == SHARED_DOCUMENTS
  {
    forall a, b :: 0 <= a < b < |run| ==> !Waits(sc, docs, run[a], run[b])
  }

  lemma {:induction false} OfNone(us: seq<Update>, w: nat)
    requires forall u :: u in us ==> u.writer != w
    ensures Of(us, w) == []
  {
    if us != [] { OfNone(us[..|us| - 1], w); }
  }

  // A write that waits for none of the others.
  lemma {:induction false} FreeWrite(sc: Scenario, docs: seq<Doc>, us: seq<Update>) returns (m: nat)
    requires |docs| == SHARED_DOCUMENTS && us != [] && !Knotted(sc, docs, us)
    ensures m < |us| && forall v :: v in us ==> !Waits(sc, docs, us[m], v)
  {
    var s := set u | u in us;
    assert us[0] in s;
    assert !Knot(sc, docs, us, s);
    var u :| u in s && !WaitsIn(sc, docs, s, u);
    m :| 0 <= m < |us| && us[m] == u;
  }

  function Without(us: seq<Update>, m: nat): seq<Update>
    requires m < |us|
  {
    us[..m] + us[m + 1..]
  }

  lemma {:induction false} WithoutIsFewer(us: seq<Update>, m: nat)
    requires m < |us|
    ensures forall u :: u in Without(us, m) ==> u in us
    ensures InOrder(us) ==> InOrder(Without(us, m))
  {
    var rest := Without(us, m);
    assert forall i :: 0 <= i < |rest| ==> rest[i] == us[if i < m then i else i + 1];
  }

  lemma {:induction false} FewerKeepsUnknotted(sc: Scenario, docs: seq<Doc>, us: seq<Update>, fewer: seq<Update>)
    requires |docs| == SHARED_DOCUMENTS && (forall u :: u in fewer ==> u in us) && !Knotted(sc, docs, us)
    ensures !Knotted(sc, docs, fewer)
  {
    forall s ensures !Knot(sc, docs, fewer, s) {
      assert !Knot(sc, docs, us, s);
    }
  }

  // Taking a free write first keeps each writer's own order.
  lemma {:induction false} FreeFirst(sc: Scenario, docs: seq<Doc>, us: seq<Update>, m: nat, run: seq<Update>)
    requires |docs| == SHARED_DOCUMENTS && m < |us| && InOrder(us)
    requires forall v :: v in us ==> !Waits(sc, docs, us[m], v)
    requires Interleaving(run, Without(us, m))
    ensures Interleaving([us[m]] + run, us)
  {
    forall w ensures Of([us[m]] + run, w) == Of(us, w) {
      assert Of(run, w) == Of(Without(us, m), w);
      forall v | v in us[..m] ensures v.writer != us[m].writer {
        assert v in us && !Waits(sc, docs, us[m], v);
      }
      OfTakenOut(us, m, w);
      OfAdd([us[m]], run, w);
    }
  }

  // A writer's first write taken out of the middle and put in front.
  lemma {:induction false} OfTakenOut(us: seq<Update>, m: nat, w: nat)
    requires m < |us| && forall v :: v in us[..m] ==> v.writer != us[m].writer
    ensures Of([us[m]], w) + Of(Without(us, m), w) == Of(us, w)
  {
    var u := us[m];
    assert us == (us[..m] + [u]) + us[m + 1..];
    OfAdd(us[..m] + [u], us[m + 1..], w);
    OfAdd(us[..m], [u], w);
    OfAdd(us[..m], us[m + 1..], w);
    OfSingle(u, w);
    if w == u.writer { OfNone(us[..m], w); }
  }

  lemma {:induction false} OfSingle(u: Update, w: nat)
    ensures Of([u], w) == if u.writer == w then [u] else []
  {
    assert [u][..0] == [];
  }

  lemma {:induction false} Order(sc: Scenario, docs: seq<Doc>, us: seq<Update>) returns (run: seq<Update>)
    requires |docs| == SHARED_DOCUMENTS && InOrder(us) && !Knotted(sc, docs, us)
    ensures Interleaving(run, us) && Respects(sc, docs, run)
    decreases |us|
  {
    if us == [] { return []; }
    var m := FreeWrite(sc, docs, us);
    WithoutIsFewer(us, m);
    FewerKeepsUnknotted(sc, docs, us, Without(us, m));
    var rest := Order(sc, docs, Without(us, m));
    FreeFirst(sc, docs, us, m, rest);
    InterleavingIsPermutation(rest, Without(us, m));
    run := [us[m]] + rest;
    forall a, b | 0 <= a < b < |run| ensures !Waits(sc, docs, run[a], run[b]) {
      if a == 0 {
        assert run[b] == rest[b - 1] && rest[b - 1] in multiset(rest);
        assert run[b] in Without(us, m);
      } else {
        assert run[a] == rest[a - 1] && run[b] == rest[b - 1];
      }
    }
  }

  // ----- From the order to the documents -----

  lemma {:induction false} SelectedIsPart(us: seq<Update>, i: nat, f: Field, u: Update)
    ensures u in Selected(us, i, f) <==> u in us && Counted(u, i, f)
  {
    if us != [] {
      SelectedIsPart(us[..|us| - 1], i, f, u);
      assert us == us[..|us| - 1] + [us[|us| - 1]];
    }
  }

  // Where the last write of a field stands: after every other.
  lemma {:induction false} LastStands(us: seq<Update>, i: nat, f: Field) returns (z: nat)
    requires Selected(us, i, f) != []
    ensures z < |us| && us[z] == Last(Selected(us, i, f)) && Counted(us[z], i, f)
    ensures forall a :: 0 <= a < |us| && Counted(us[a], i, f) ==> a <= z
  {
    var n := |us| - 1;
    if Counted(us[n], i, f) { z := n; } else { z := LastStands(us[..n], i, f); }
  }

  // In such an order every accepted field ends with its value.
  lemma {:induction false} FieldEnds(sc: Scenario, docs: seq<Doc>, us: seq<Update>, run: seq<Update>, i: nat, f: Field)
    requires |docs| == SHARED_DOCUMENTS && i < SHARED_DOCUMENTS && Uses(sc, f)
    requires Interleaving(run, us) && Respects(sc, docs, run) && FieldAccepted(us, i, f, docs[i])
    ensures Value(Execute(sc, run, i), f) == Value(docs[i], f)
  {
    ExecuteField(sc, run, i, f);
    SelectedInterleave(run, us, i, f);
    InterleavingIsPermutation(Selected(run, i, f), Selected(us, i, f));
    var w := Explains(Selected(us, i, f), Value(docs[i], f), Value(Seed(i), f));
    if w.Some? {
      var u := Last(Of(Selected(us, i, f), w.value));
      OfIsPart(Selected(us, i, f), w.value, u);
      assert u in multiset(Selected(us, i, f)) && u in Selected(run, i, f);
      LastIs(sc, docs, run, i, f, u);
    }
  }

  lemma {:induction false} OfIsPart(us: seq<Update>, w: nat, u: Update)
    requires u in Of(us, w)
    ensures u in us && u.writer == w
  {
    if us != [] {
      var n := |us| - 1;
      if u in Of(us[..n], w) { OfIsPart(us[..n], w, u); }
    }
  }

  lemma {:induction false} LastIs(sc: Scenario, docs: seq<Doc>, run: seq<Update>, i: nat, f: Field, u: Update)
    requires |docs| == SHARED_DOCUMENTS && i < SHARED_DOCUMENTS && Uses(sc, f) && Respects(sc, docs, run)
    requires u in Selected(run, i, f) && Value(docs[i], f) == Token(u)
    ensures Last(Selected(run, i, f)) == u
  {
    SelectedIsPart(run, i, f, u);
    var z := LastStands(run, i, f);
    var a :| 0 <= a < |run| && run[a] == u;
    if run[z] != u {
      assert Outlasts(sc, docs, f, u, run[z]);
      assert Waits(sc, docs, run[a], run[z]);
    }
  }

  ghost predicate Explained(sc: Scenario, run: seq<Update>, docs: seq<Doc>)
    requires !sc.Creates? && |docs| == SHARED_DOCUMENTS
  {
    forall i: nat :: i < SHARED_DOCUMENTS ==> Agree(sc, Execute(sc, run, i), docs[i])
  }

  lemma {:induction false} OrderExplains(sc: Scenario, docs: seq<Doc>, us: seq<Update>, run: seq<Update>)
    requires !sc.Creates? && |docs| == SHARED_DOCUMENTS && Interleaving(run, us) && Respects(sc, docs, run)
    requires forall i: nat :: i < SHARED_DOCUMENTS ==> DocAccepted(sc, us, i, docs[i])
    ensures Explained(sc, run, docs)
  {
    forall i: nat | i < SHARED_DOCUMENTS ensures Agree(sc, Execute(sc, run, i), docs[i]) {
      assert DocAccepted(sc, us, i, docs[i]);
      if sc.SharedUpdates? {
        FieldEnds(sc, docs, us, run, i, Left);
        FieldEnds(sc, docs, us, run, i, Right);
      } else {
        FieldEnds(sc, docs, us, run, i, Label);
        ExecuteCount(run, i);
        SelectedInterleave(run, us, i, Label);
        InterleavingIsPermutation(Selected(run, i, Label), Selected(us, i, Label));
      }
    }
  }

  // ----- From the documents to the order -----

  lemma {:induction false} OfIncreases(us: seq<Update>, w: nat)
    requires InOrder(us)
    ensures forall i, j :: 0 <= i < j < |Of(us, w)| ==> Of(us, w)[i].op < Of(us, w)[j].op
  {
    if us != [] {
      var n := |us| - 1;
      OfIncreases(us[..n], w);
      forall i | 0 <= i < |Of(us[..n], w)| && us[n].writer == w ensures Of(us[..n], w)[i].op < us[n].op {
        OfIsPart(us[..n], w, Of(us[..n], w)[i]);
      }
    }
  }

  // Two writes of one writer stand in the same order among its own.
  lemma {:induction false} OwnPlaces(us: seq<Update>, a: nat, b: nat) returns (i: nat, j: nat)
    requires a < b < |us| && us[a].writer == us[b].writer
    ensures i < j < |Of(us, us[a].writer)| && Of(us, us[a].writer)[i] == us[a] && Of(us, us[a].writer)[j] == us[b]
  {
    var n, w := |us| - 1, us[a].writer;
    if b < n {
      i, j := OwnPlaces(us[..n], a, b);
    } else {
      i := OwnPlace(us[..n], a);
      j := |Of(us[..n], w)|;
    }
  }

  lemma {:induction false} OwnPlace(us: seq<Update>, a: nat) returns (i: nat)
    requires a < |us|
    ensures i < |Of(us, us[a].writer)| && Of(us, us[a].writer)[i] == us[a]
  {
    var n := |us| - 1;
    if a < n { i := OwnPlace(us[..n], a); } else { i := |Of(us[..n], us[a].writer)|; }
  }

  lemma {:induction false} RunInOrder(run: seq<Update>, us: seq<Update>)
    requires InOrder(us) && Interleaving(run, us)
    ensures InOrder(run)
  {
    forall a, b | 0 <= a < b < |run| && run[a].writer == run[b].writer ensures run[a].op < run[b].op {
      var i, j := OwnPlaces(run, a, b);
      assert Of(run, run[a].writer) == Of(us, run[a].writer);
      OfIncreases(us, run[a].writer);
    }
  }

  // An order that explains the documents has no wait in the wrong direction.
  lemma {:induction false} ExplainedRespects(sc: Scenario, docs: seq<Doc>, us: seq<Update>, run: seq<Update>)
    requires !sc.Creates? && |docs| == SHARED_DOCUMENTS && InOrder(us) && Interleaving(run, us)
    requires Explained(sc, run, docs)
    ensures Respects(sc, docs, run)
  {
    RunInOrder(run, us);
    forall a, b | 0 <= a < b < |run| ensures !Waits(sc, docs, run[a], run[b]) {
      forall f ensures !Outlasts(sc, docs, f, run[a], run[b]) {
        if Outlasts(sc, docs, f, run[a], run[b]) { EndsLater(sc, docs, run, a, b, f); }
      }
    }
  }

  lemma {:induction false} EndsLater(sc: Scenario, docs: seq<Doc>, run: seq<Update>, a: nat, b: nat, f: Field)
    requires !sc.Creates? && |docs| == SHARED_DOCUMENTS && InOrder(run) && Explained(sc, run, docs)
    requires a < b < |run| && Uses(sc, f)
    requires Counted(run[a], run[a].op % SHARED_DOCUMENTS, f) && Counted(run[b], run[a].op % SHARED_DOCUMENTS, f)
    ensures Value(docs[run[a].op % SHARED_DOCUMENTS], f) != Token(run[a])
  {
    var i := run[a].op % SHARED_DOCUMENTS;
    SelectedIsPart(run, i, f, run[a]);
    var z := LastStands(run, i, f);
    ExecuteField(sc, run, i, f);
    assert Agree(sc, Execute(sc, run, i), docs[i]);
    if Token(run[z]) == Token(run[a]) { TokenIsInjective(run[z], run[a]); }
  }

  lemma {:induction false} FirstOf(run: seq<Update>, s: set<Update>, n: nat) returns (a: nat)
    requires n < |run| && run[n] in s
    ensures a <= n && run[a] in s && forall b :: 0 <= b < a ==> run[b] !in s
  {
    if b :| 0 <= b < n && run[b] in s { a := FirstOf(run, s, b); } else { a := n; }
  }

  lemma {:induction false} RespectedIsUnknotted(sc: Scenario, docs: seq<Doc>, us: seq<Update>, run: seq<Update>)
    requires |docs| == SHARED_DOCUMENTS && Interleaving(run, us) && Respects(sc, docs, run)
    ensures !Knotted(sc, docs, us)
  {
    InterleavingIsPermutation(run, us);
    forall s ensures !Knot(sc, docs, us, s) {
      if Knot(sc, docs, us, s) { var a, b := KnotGoesBack(sc, docs, us, run, s); }
    }
  }

  lemma {:induction false} PlaceOf(run: seq<Update>, us: seq<Update>, u: Update) returns (n: nat)
    requires multiset(run) == multiset(us) && u in us
    ensures n < |run| && run[n] == u
  {
    assert u in multiset(us) && u in run;
    n :| 0 <= n < |run| && run[n] == u;
  }

  lemma {:induction false} NoSelfWait(sc: Scenario, docs: seq<Doc>, u: Update, v: Update)
    requires |docs| == SHARED_DOCUMENTS && Waits(sc, docs, u, v)
    ensures u != v
  {
  }

  // In any order the first write of a knot comes before one it waits for.
  lemma {:induction false} KnotGoesBack(sc: Scenario, docs: seq<Doc>, us: seq<Update>, run: seq<Update>, s: set<Update>)
    returns (a: nat, b: nat)
    requires |docs| == SHARED_DOCUMENTS && multiset(run) == multiset(us) && Knot(sc, docs, us, s)
    ensures a < b < |run| && Waits(sc, docs, run[a], run[b])
  {
    var u :| u in s;
    var n := PlaceOf(run, us, u);
    a := FirstOf(run, s, n);
    var v := AwaitedIn(sc, docs, us, s, run[a]);
    b := PlaceOf(run, us, v);
    NoSelfWait(sc, docs, run[a], v);
  }

  // ----- All documents at once -----

  ghost predicate OneOrder(sc: Scenario, run: seq<Update>, us: seq<Update>, docs: seq<Doc>)
    requires !sc.Creates? && |docs| == SHARED_DOCUMENTS
  {
    Interleaving(run, us) && Explained(sc, run, docs)
  }

  // Some one order explains all documents if and only if each passes on its own
  // and no writes wait for each other in a circle.
  lemma OneOrderIff(sc: Scenario, successes: seq<Update>, docs: seq<Doc>)
    requires !sc.Creates? && |docs| == SHARED_DOCUMENTS && InOrder(successes)
    ensures (exists run :: OneOrder(sc, run, successes, docs)) <==>
            (forall i: nat :: i < SHARED_DOCUMENTS ==> DocAccepted(sc, successes, i, docs[i]))
            && !Cyclic(sc, docs, successes)
  {
    CyclicIffKnotted(sc, docs, successes);
    if run :| OneOrder(sc, run, successes, docs) {
      forall i: nat | i < SHARED_DOCUMENTS ensures DocAccepted(sc, successes, i, docs[i]) {
        ReachedIsAccepted(sc, run, successes, i, docs[i]);
      }
      ExplainedRespects(sc, docs, successes, run);
      RespectedIsUnknotted(sc, docs, successes, run);
    }
    if (forall i: nat :: i < SHARED_DOCUMENTS ==> DocAccepted(sc, successes, i, docs[i])) &&
       !Knotted(sc, docs, successes)
    {
      var run := Order(sc, docs, successes);
      OrderExplains(sc, docs, successes, run);
      assert OneOrder(sc, run, successes, docs);
    }
  }

  // ----- Each passes, and no order explains all -----

  const CROSSED: seq<Update> := [Update(0, 1), Update(0, 8), Update(1, 0), Update(1, 1)]
  const OTHER_WAY: seq<Update> := [Update(1, 0), Update(1, 1), Update(0, 1), Update(0, 8)]

  // Document 1 from the other order, the rest from this one.
  function CrossedDocs(): (docs: seq<Doc>)
    ensures |docs| == SHARED_DOCUMENTS
  {
    seq(SHARED_DOCUMENTS, i requires 0 <= i => Execute(CountersIndexes, if i == 1 then OTHER_WAY else CROSSED, i))
  }

  lemma {:induction false} OtherWayInterleaves()
    ensures Interleaving(OTHER_WAY, CROSSED) && InOrder(CROSSED)
  {
    var a, b := [Update(0, 1), Update(0, 8)], [Update(1, 0), Update(1, 1)];
    assert CROSSED == a + b && OTHER_WAY == b + a;
    forall w ensures Of(OTHER_WAY, w) == Of(CROSSED, w) {
      OfAdd(a, b, w);
      OfAdd(b, a, w);
      if w == 0 { OfNone(b, w); } else { OfNone(a, w); }
    }
  }

  // The last write of a field, given its place.
  lemma {:induction false} EndsWith(run: seq<Update>, i: nat, z: nat)
    requires i < SHARED_DOCUMENTS && z < |run| && Counted(run[z], i, Label)
    requires forall a :: z < a < |run| ==> !Counted(run[a], i, Label)
    ensures Execute(CountersIndexes, run, i).tag == Token(run[z])
  {
    SelectedIsPart(run, i, Label, run[z]);
    var y := LastStands(run, i, Label);
    ExecuteField(CountersIndexes, run, i, Label);
  }

  lemma {:induction false} CrossedEnds()
    ensures CrossedDocs()[0].tag == Token(Update(1, 0)) && CrossedDocs()[1].tag == Token(Update(0, 1))
  {
    EndsWith(CROSSED, 0, 2);
    EndsWith(OTHER_WAY, 1, 2);
  }

  lemma {:induction false} LabelOutlasts(docs: seq<Doc>, i: nat, u: Update, v: Update)
    requires |docs| == SHARED_DOCUMENTS && u != v && i == u.op % SHARED_DOCUMENTS == v.op % SHARED_DOCUMENTS
    requires docs[i].tag == Token(u)
    ensures Waits(CountersIndexes, docs, u, v)
  {
    assert Outlasts(CountersIndexes, docs, Label, u, v);
  }

  lemma {:induction false} CrossedIsCyclic(docs: seq<Doc>)
    requires |docs| == SHARED_DOCUMENTS
    requires docs[0].tag == Token(Update(1, 0)) && docs[1].tag == Token(Update(0, 1))
    ensures Cyclic(CountersIndexes, docs, CROSSED)
  {
    LabelOutlasts(docs, 1, Update(0, 1), Update(1, 1));
    LabelOutlasts(docs, 0, Update(1, 0), Update(0, 8));
    assert CROSSED[0] in CROSSED && CROSSED[1] in CROSSED && CROSSED[2] in CROSSED && CROSSED[3] in CROSSED;
    var c := [Update(0, 1), Update(1, 1), Update(1, 0), Update(0, 8)];
    assert Cycle(CountersIndexes, docs, CROSSED, c);
  }

  // Two writers, two documents, the last write of each from the writer whose
  // other write came too early: every document passes, and no one order explains
  // them all.
  lemma {:induction false} PassesWithoutOneOrder()
    ensures InOrder(CROSSED)
    ensures forall i: nat :: i < SHARED_DOCUMENTS ==> DocAccepted(CountersIndexes, CROSSED, i, CrossedDocs()[i])
    ensures !exists run :: OneOrder(CountersIndexes, run, CROSSED, CrossedDocs())
  {
    OtherWayInterleaves();
    forall i: nat | i < SHARED_DOCUMENTS ensures DocAccepted(CountersIndexes, CROSSED, i, CrossedDocs()[i]) {
      ReachedIsAccepted(CountersIndexes, if i == 1 then OTHER_WAY else CROSSED, CROSSED, i, CrossedDocs()[i]);
    }
    CrossedEnds();
    CrossedIsCyclic(CrossedDocs());
    OneOrderIff(CountersIndexes, CROSSED, CrossedDocs());
  }
}
