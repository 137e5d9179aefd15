// The in-memory store under concurrency (crates/acp/src/local.rs): one cell
// holding an immutable map, replaced by compare-and-swap. A registration
// loads, checks and swaps in a retry loop; put, delete and unregister do the
// same inside `rcu`; everything else answers from one loaded map. Each
// installed map has an identity of its own, counted by `version`, so a swap
// succeeds exactly when nothing was installed since the load.

module CasRegistration {
  import opened Text
  import opened RelationKeys
  import opened TupleStores
  import opened Ownership

  type Pid = nat

  datatype Phase =
    | Idle
    | Looping(op: Op, began: nat, retries: nat)
    | Loaded(op: Op, began: nat, retries: nat, version: nat, seen: TupleMap)
    | Returned(op: Op, answer: Answer, retries: nat)

  datatype State = State(tuples: TupleMap, version: nat, procs: map<Pid, Phase>)

  datatype Action = Begin(pid: Pid, op: Op) | Load(pid: Pid) | Swap(pid: Pid) | Crash(pid: Pid) | Forget(pid: Pid)

  function PhaseOf(s: State, p: Pid): Phase
  {
    if p in s.procs then s.procs[p] else Idle
  }

  // The operations that replace the map. Identifiers have passed validation.
  predicate Updates(op: Op)
  {
    WellFormed(op) && Accepts(op) && (op.PutTuple? || op.DeleteTuple? || op.DeleteDocTuples? || op.RegisterDocAtomic?)
  }

  predicate Taken(m: TupleMap, c: Bytes, d: Bytes)
  {
    exists k :: k in m && DocPrefix(c, d) <= k
  }

  // The replacement a turn of the loop builds from the map it loaded.
  function Rebuilt(m: TupleMap, op: Op): TupleMap
    requires Updates(op)
  {
    match op
    case PutTuple(t) => m[StorageKey(t) := t]
    case DeleteTuple(t) => m - {StorageKey(t)}
    case DeleteDocTuples(c, d) => map k | k in m && !(DocPrefix(c, d) <= k) :: m[k]
    case RegisterDocAtomic(o, c, d) => m[StorageKey(OwnerTuple(o, c, d)) := OwnerTuple(o, c, d)]
  }

  // What the other operations, and those refused for their names, answer from
  // the map they loaded.
  function ReadFrom(m: TupleMap, op: Op): Answer
    requires WellFormed(op) && !Updates(op)
  {
    if !Accepts(op) then InvalidPath else
    match op
    case HasTuple(t) => YesIf(StorageKey(t) in m)
    case GetDocTuples(c, d) => Tuples(set k | k in m && DocPrefix(c, d) <= k :: m[k])
    case GetRelationSubjects(c, d, r) => Names(set k | k in m && RelationPrefix(c, d, r) <= k :: m[k].subject)
    case GetSubjectRelations(x, c, d) =>
      Names(set k | k in m && DocPrefix(c, d) <= k && m[k].subject == x :: m[k].relation)
    case IsDocRegistered(c, d) => YesIf(Taken(m, c, d))
  }

  ghost predicate Next(s: State, a: Action, s': State)
  {
    var ph := PhaseOf(s, a.pid);
    match a
    case Begin(p, op) =>
      ph.Idle? && WellFormed(op) && s' == s.(procs := s.procs[p := Looping(op, s.version, 0)])
    case Load(p) =>
      && ph.Looping? && WellFormed(ph.op)
      && s' == s.(procs := s.procs[p :=
           if !Updates(ph.op) then Returned(ph.op, ReadFrom(s.tuples, ph.op), ph.retries)
           else if ph.op.RegisterDocAtomic? && Taken(s.tuples, ph.op.collection, ph.op.doc)
           then Returned(ph.op, No, ph.retries)
           else Loaded(ph.op, ph.began, ph.retries, s.version, s.tuples)])
    case Swap(p) =>
      && ph.Loaded? && Updates(ph.op)
      && if ph.version == s.version
         then s' == State(Rebuilt(ph.seen, ph.op), s.version + 1,
                          s.procs[p := Returned(ph.op, if ph.op.RegisterDocAtomic? then Yes else Done, ph.retries)])
         else s' == s.(procs := s.procs[p := Looping(ph.op, ph.began, ph.retries + 1)])
    case Crash(p) => (ph.Looping? || ph.Loaded?) && s' == s.(procs := s.procs - {p})
    case Forget(p) => ph.Returned? && s' == s.(procs := s.procs - {p})
  }

  ghost predicate PhaseInv(s: State, ph: Phase)
  {
    match ph
    case Looping(op, began, retries) => WellFormed(op) && began + retries <= s.version
    case Loaded(op, began, retries, version, seen) =>
      && Updates(op) && began + retries <= version <= s.version
      && (version == s.version ==> seen == s.tuples)
      && (op.RegisterDocAtomic? ==> !Taken(seen, op.collection, op.doc))
    case _ => true
  }

  ghost predicate Inv(s: State)
  {
    Keyed(s.tuples) && forall p :: PhaseInv(s, PhaseOf(s, p))
  }

  lemma RebuiltIsEffect(m: TupleMap, op: Op)
    requires Keyed(m) && Updates(op)
    requires op.RegisterDocAtomic? ==> !Taken(m, op.collection, op.doc)
    ensures Keyed(Rebuilt(m, op)) && Contents(Rebuilt(m, op)) == Effect(Contents(m), op)
  {
    match op
    case PutTuple(t) => PutByKey(m, t);
    case DeleteTuple(t) => DeleteByKey(m, t);
    case DeleteDocTuples(c, d) => DeleteDocKeys(m, Rebuilt(m, op), c, d);
    case RegisterDocAtomic(o, c, d) =>
      DocKeys(m, c, d);
      PutByKey(m, OwnerTuple(o, c, d));
  }

  lemma ReadIsReply(m: TupleMap, op: Op)
    requires Keyed(m) && WellFormed(op) && !Updates(op)
    ensures ReadFrom(m, op) == Reply(Contents(m), op) && Effect(Contents(m), op) == Contents(m)
  {
    if Accepts(op) {
      match op {
        case HasTuple(t) => HasByKey(m, t);
        case GetDocTuples(c, d) => ScannedDocTuples(m, c, d);
        case GetRelationSubjects(c, d, r) => ReadSubjects(m, c, d, r);
        case GetSubjectRelations(x, c, d) => ReadRelations(m, x, c, d);
        case IsDocRegistered(c, d) => DocKeys(m, c, d);
      }
    }
  }

  lemma ReadSubjects(m: TupleMap, c: Bytes, d: Bytes, r: Bytes)
    requires Keyed(m) && ValidDocument(c, d) && ValidComponent(r)
    ensures (set k | k in m && RelationPrefix(c, d, r) <= k :: m[k].subject) == Subjects(Contents(m), c, d, r)
  {
    ScannedRelationTuples(m, c, d, r);
    var found := set k | k in m && RelationPrefix(c, d, r) <= k :: m[k];
    assert forall k :: k in m && RelationPrefix(c, d, r) <= k ==> m[k] in found;
    assert Subjects(Contents(m), c, d, r) == set t | t in found :: t.subject;
  }

  lemma ReadRelations(m: TupleMap, x: Bytes, c: Bytes, d: Bytes)
    requires Keyed(m) && ValidDocument(c, d)
    ensures (set k | k in m && DocPrefix(c, d) <= k && m[k].subject == x :: m[k].relation) == Relations(Contents(m), x, c, d)
  {
    ScannedDocTuples(m, c, d);
    var found := set k | k in m && DocPrefix(c, d) <= k :: m[k];
    assert forall k :: k in m && DocPrefix(c, d) <= k ==> m[k] in found;
    assert Relations(Contents(m), x, c, d) == set t | t in found && t.subject == x :: t.relation;
  }

  lemma InvStep(s: State, a: Action, s': State)
    requires Inv(s) && Next(s, a, s')
    ensures Inv(s')
  {
    var ph := PhaseOf(s, a.pid);
    assert PhaseInv(s, ph);
    if a.Swap? && ph.version == s.version {
      RebuiltIsEffect(s.tuples, ph.op);
    }
    forall q ensures PhaseInv(s', PhaseOf(s', q)) {
      if q != a.pid {
        assert PhaseOf(s', q) == PhaseOf(s, q);
        assert PhaseInv(s, PhaseOf(s, q));
      }
    }
  }

  // What a load answers at once, it answers as the atomic operation would.
  lemma LoadIsReply(m: TupleMap, op: Op)
    requires Keyed(m) && WellFormed(op)
    ensures !Updates(op) ==> ReadFrom(m, op) == Reply(Contents(m), op) && Effect(Contents(m), op) == Contents(m)
    ensures Updates(op) && op.RegisterDocAtomic? && Taken(m, op.collection, op.doc) ==>
              Reply(Contents(m), op) == No && Effect(Contents(m), op) == Contents(m)
  {
    if !Updates(op) {
      ReadIsReply(m, op);
    } else if op.RegisterDocAtomic? {
      DocKeys(m, op.collection, op.doc);
    }
  }

  // The step at which `p`'s operation returns.
  ghost predicate Completes(s: State, a: Action, s': State)
  {
    (a.Load? || a.Swap?) && PhaseOf(s', a.pid).Returned?
  }

  // Every step either completes an operation, and is then exactly that
  // operation applied atomically to the current tuples, or leaves the tuples
  // as they were. The store is linearizable for all its operations.
  lemma StepsAreAtomic(s: State, a: Action, s': State)
    requires Inv(s) && Next(s, a, s')
    ensures Completes(s, a, s') ==>
              var ph := PhaseOf(s', a.pid);
              && ph.op == PhaseOf(s, a.pid).op
              && ph.answer == Reply(Contents(s.tuples), ph.op)
              && Contents(s'.tuples) == Effect(Contents(s.tuples), ph.op)
    ensures !Completes(s, a, s') ==> s'.tuples == s.tuples && s'.version == s.version
  {
    var ph := PhaseOf(s, a.pid);
    assert PhaseInv(s, ph);
    if a.Load? {
      LoadIsReply(s.tuples, ph.op);
    }
    if a.Swap? && ph.version == s.version {
      RebuiltIsEffect(s.tuples, ph.op);
      if ph.op.RegisterDocAtomic? {
        DocKeys(s.tuples, ph.op.collection, ph.op.doc);
      }
    }
  }

  // ----- Runs -----

  datatype Run = Run(states: seq<State>, acts: seq<Action>)

  ghost predicate StepAt(r: Run, i: nat)
  {
    i < |r.acts| && i + 1 < |r.states| && Next(r.states[i], r.acts[i], r.states[i + 1])
  }

  ghost predicate ValidRun(r: Run)
  {
    && |r.states| == |r.acts| + 1
    && Keyed(r.states[0].tuples) && r.states[0].procs == map[]
    && forall i :: 0 <= i < |r.acts| ==> StepAt(r, i)
  }

  lemma {:induction false} InvHolds(r: Run, i: nat)
    requires ValidRun(r) && i < |r.states|
    ensures Inv(r.states[i])
  {
    if i > 0 {
      InvHolds(r, i - 1);
      assert StepAt(r, i - 1);
      InvStep(r.states[i - 1], r.acts[i - 1], r.states[i]);
    }
  }

  // What one step completed, if anything, and what it answered.
  function CompletedOp(a: Action, s': State): seq<Op>
  {
    var ph := PhaseOf(s', a.pid);
    if (a.Load? || a.Swap?) && ph.Returned? then [ph.op] else []
  }

  function CompletedAnswer(a: Action, s': State): seq<Answer>
  {
    var ph := PhaseOf(s', a.pid);
    if (a.Load? || a.Swap?) && ph.Returned? then [ph.answer] else []
  }

  // The operations completed in the first `n` steps, in completion order.
  function History(r: Run, n: nat): seq<Op>
    requires |r.states| == |r.acts| + 1 && n <= |r.acts|
  {
    if n == 0 then [] else History(r, n - 1) + CompletedOp(r.acts[n - 1], r.states[n])
  }

  function Answers(r: Run, n: nat): seq<Answer>
    requires |r.states| == |r.acts| + 1 && n <= |r.acts|
  {
    if n == 0 then [] else Answers(r, n - 1) + CompletedAnswer(r.acts[n - 1], r.states[n])
  }

  // Any concurrent run is the one-at-a-time run of its operations in the order
  // they completed: same answers, same tuples.
  lemma {:induction false} RunIsSequential(r: Run, n: nat)
    requires ValidRun(r) && n <= |r.acts|
    ensures Contents(r.states[n].tuples) == States(Contents(r.states[0].tuples), History(r, n))
    ensures Answers(r, n) == Replies(Contents(r.states[0].tuples), History(r, n))
  {
    if n > 0 {
      RunIsSequential(r, n - 1);
      RunExtends(r, n - 1, Contents(r.states[0].tuples), History(r, n - 1));
    }
  }

  lemma {:induction false} RunExtends(r: Run, n: nat, start: set<RelationTuple>, h: seq<Op>)
    requires ValidRun(r) && n < |r.acts| && Contents(r.states[n].tuples) == States(start, h)
    ensures var more := h + CompletedOp(r.acts[n], r.states[n + 1]);
            && Contents(r.states[n + 1].tuples) == States(start, more)
            && Replies(start, more) == Replies(start, h) + CompletedAnswer(r.acts[n], r.states[n + 1])
  {
    InvHolds(r, n);
    assert StepAt(r, n);
    StepExtends(r.states[n], r.acts[n], r.states[n + 1], start, h);
  }

  lemma StepExtends(s: State, a: Action, s': State, start: set<RelationTuple>, h: seq<Op>)
    requires Inv(s) && Next(s, a, s') && Contents(s.tuples) == States(start, h)
    ensures Contents(s'.tuples) == States(start, h + CompletedOp(a, s'))
    ensures Replies(start, h + CompletedOp(a, s')) == Replies(start, h) + CompletedAnswer(a, s')
  {
    StepsAreAtomic(s, a, s');
    if Completes(s, a, s') {
      OneMore(start, h, PhaseOf(s', a.pid).op);
    } else {
      assert h + CompletedOp(a, s') == h && Replies(start, h) + CompletedAnswer(a, s') == Replies(start, h);
    }
  }

  lemma OneMore(start: set<RelationTuple>, h: seq<Op>, op: Op)
    ensures States(start, h + [op]) == Effect(States(start, h), op)
    ensures Replies(start, h + [op]) == Replies(start, h) + [Reply(States(start, h), op)]
  {
    assert (h + [op])[..|h|] == h;
  }

  // ----- Retries -----

  // Successful updates by processes other than `p` in steps [b, j).
  function UpdatesByOthers(r: Run, p: Pid, b: nat, j: nat): nat
    requires |r.states| == |r.acts| + 1 && b <= j <= |r.acts|
  {
    if b == j then 0
    else
      UpdatesByOthers(r, p, b, j - 1) +
      if r.acts[j - 1].pid != p && r.states[j].version != r.states[j - 1].version then 1 else 0
  }

  // `p`'s call runs from step `b` without having returned by state `j`.
  ghost predicate Running(r: Run, p: Pid, b: nat, j: nat)
    requires ValidRun(r)
  {
    && b < j < |r.states| && r.acts[b].Begin? && r.acts[b].pid == p
    && forall i :: b < i <= j ==>
         var ph := PhaseOf(r.states[i], p);
         (ph.Looping? || ph.Loaded?) && ph.began == r.states[b].version
  }

  lemma {:induction false} VersionCountsUpdates(r: Run, p: Pid, b: nat, j: nat)
    requires ValidRun(r) && Running(r, p, b, j)
    ensures r.states[j].version == r.states[b].version + UpdatesByOthers(r, p, b, j)
  {
    assert StepAt(r, j - 1);
    if j == b + 1 {
      assert UpdatesByOthers(r, p, b, b) == 0;
    } else {
      VersionCountsUpdates(r, p, b, j - 1);
    }
  }

  // A call retries at most once for each successful update by another process
  // that lands while it runs.
  lemma RetriesAreBounded(r: Run, p: Pid, b: nat, j: nat)
    requires ValidRun(r) && Running(r, p, b, j)
    ensures PhaseOf(r.states[j], p).retries <= UpdatesByOthers(r, p, b, j)
  {
    InvHolds(r, j);
    assert PhaseInv(r.states[j], PhaseOf(r.states[j], p));
    VersionCountsUpdates(r, p, b, j);
  }

  // A call that nobody disturbs does not retry at all.
  lemma UndisturbedCallSucceeds(r: Run, p: Pid, b: nat, j: nat)
    requires ValidRun(r) && Running(r, p, b, j) && j < |r.acts| && r.acts[j] == Swap(p)
    requires UpdatesByOthers(r, p, b, j) == 0
    ensures PhaseOf(r.states[j + 1], p).Returned? && PhaseOf(r.states[j + 1], p).retries == 0
  {
    InvHolds(r, j);
    assert PhaseInv(r.states[j], PhaseOf(r.states[j], p));
    VersionCountsUpdates(r, p, b, j);
    assert StepAt(r, j);
  }

  // ----- Ownership, under every interleaving -----

  // No call of the run puts or deletes an owner tuple.
  ghost predicate RunCalls(r: Run)
  {
    forall i :: 0 <= i < |r.acts| && r.acts[i].Begin? ==> NoOwnerEdit(r.acts[i].op)
  }

  ghost predicate Calls(s: State)
  {
    forall p :: var ph := PhaseOf(s, p); (ph.Looping? || ph.Loaded?) ==> NoOwnerEdit(ph.op)
  }

  lemma {:induction false} CallsHold(r: Run, j: nat)
    requires ValidRun(r) && RunCalls(r) && j < |r.states|
    ensures Calls(r.states[j])
  {
    if j > 0 {
      CallsHold(r, j - 1);
      var s, s', a := r.states[j - 1], r.states[j], r.acts[j - 1];
      assert StepAt(r, j - 1);
      forall p ensures var ph := PhaseOf(s', p); (ph.Looping? || ph.Loaded?) ==> NoOwnerEdit(ph.op) {
        if p != a.pid { assert PhaseOf(s', p) == PhaseOf(s, p); }
      }
    }
  }

  // What step `j` completes, applied to what it found.
  lemma TuplesStep(r: Run, j: nat)
    requires ValidRun(r) && RunCalls(r) && j < |r.acts|
    ensures var ts, ts', ops := Contents(r.states[j].tuples), Contents(r.states[j + 1].tuples),
                                CompletedOp(r.acts[j], r.states[j + 1]);
            && (ops == [] ==> ts' == ts)
            && (ops != [] ==> ts' == Effect(ts, ops[0]) && NoOwnerEdit(ops[0]))
  {
    InvHolds(r, j);
    CallsHold(r, j);
    assert StepAt(r, j);
    StepsAreAtomic(r.states[j], r.acts[j], r.states[j + 1]);
  }

  // Under every interleaving a document has at most one owner.
  lemma {:induction false} AtMostOneOwner(r: Run, j: nat, c: Bytes, d: Bytes)
    requires ValidRun(r) && RunCalls(r) && j < |r.states| && OneOwner(Contents(r.states[0].tuples), c, d)
    ensures OneOwner(Contents(r.states[j].tuples), c, d)
  {
    if j > 0 {
      AtMostOneOwner(r, j - 1, c, d);
      TuplesStep(r, j - 1);
      var ops := CompletedOp(r.acts[j - 1], r.states[j]);
      if ops != [] { OneOwnerStep(Contents(r.states[j - 1].tuples), ops[0], c, d); }
    }
  }

  // Step `i` completes an unregistration of the document.
  predicate UnregistersAt(r: Run, i: nat, c: Bytes, d: Bytes)
    requires |r.states| == |r.acts| + 1 && i < |r.acts|
  {
    var ops := CompletedOp(r.acts[i], r.states[i + 1]);
    ops != [] && Unregisters(ops[0], c, d)
  }

  // Step `w` completes a registration of the document for `o` that answers yes.
  predicate WinsAt(r: Run, w: nat, o: Bytes, c: Bytes, d: Bytes)
    requires |r.states| == |r.acts| + 1 && w < |r.acts|
  {
    && CompletedOp(r.acts[w], r.states[w + 1]) == [RegisterDocAtomic(o, c, d)]
    && CompletedAnswer(r.acts[w], r.states[w + 1]) == [Yes]
  }

  // Whoever won owns the document, alone, until it is unregistered.
  lemma {:induction false} WinnerOwns(r: Run, w: nat, o: Bytes, c: Bytes, d: Bytes, j: nat)
    requires ValidRun(r) && RunCalls(r) && w < j < |r.states| && WinsAt(r, w, o, c, d)
    requires forall i :: w < i < j ==> !UnregistersAt(r, i, c, d)
    ensures OwnersOf(Contents(r.states[j].tuples), c, d) == {o}
  {
    var ts, ops := Contents(r.states[j - 1].tuples), CompletedOp(r.acts[j - 1], r.states[j]);
    TuplesStep(r, j - 1);
    if j == w + 1 {
      WinIsReply(r, w, o, c, d);
      OwnersStep(ts, ops[0], c, d);
    } else {
      WinnerOwns(r, w, o, c, d, j - 1);
      assert !UnregistersAt(r, j - 1, c, d);
      if ops != [] { OwnersStep(ts, ops[0], c, d); }
    }
  }

  lemma WinIsReply(r: Run, w: nat, o: Bytes, c: Bytes, d: Bytes)
    requires ValidRun(r) && w < |r.acts| && WinsAt(r, w, o, c, d)
    ensures Wins(Contents(r.states[w].tuples), RegisterDocAtomic(o, c, d), c, d)
  {
    InvHolds(r, w);
    assert StepAt(r, w);
    StepsAreAtomic(r.states[w], r.acts[w], r.states[w + 1]);
  }

  // ----- Orphans, under every interleaving -----

  // Step `i` completes a put of one of the document's tuples while it has no
  // owner.
  predicate StrandsDuring(r: Run, i: nat, c: Bytes, d: Bytes)
    requires |r.states| == |r.acts| + 1
  {
    && i < |r.acts|
    && var ops := CompletedOp(r.acts[i], r.states[i + 1]);
       ops != [] && Strands(Contents(r.states[i].tuples), ops[0], c, d)
  }

  predicate OrphanedIn(r: Run, i: nat, c: Bytes, d: Bytes)
  {
    i < |r.states| && Orphaned(Contents(r.states[i].tuples), c, d)
  }

  // A concurrent run of the in-memory store ever leaves a document with tuples
  // and no owner if and only if some put of its tuples lands while it has none.
  lemma RunOrphansIff(r: Run, c: Bytes, d: Bytes)
    requires ValidRun(r) && RunCalls(r) && !OrphanedIn(r, 0, c, d)
    ensures (exists i: nat :: OrphanedIn(r, i, c, d)) <==> (exists i: nat :: StrandsDuring(r, i, c, d))
  {
    if i: nat :| OrphanedIn(r, i, c, d) {
      var n := StrandingStep(r, i, c, d);
    }
    if i: nat :| StrandsDuring(r, i, c, d) {
      TuplesStep(r, i);
      OrphanStep(Contents(r.states[i].tuples), CompletedOp(r.acts[i], r.states[i + 1])[0], c, d);
      assert OrphanedIn(r, i + 1, c, d);
    }
  }

  lemma {:induction false} StrandingStep(r: Run, i: nat, c: Bytes, d: Bytes) returns (n: nat)
    requires ValidRun(r) && RunCalls(r) && !OrphanedIn(r, 0, c, d) && OrphanedIn(r, i, c, d)
    ensures n < i && StrandsDuring(r, n, c, d)
    decreases i
  {
    n := i - 1;
    if OrphanedIn(r, n, c, d) {
      n := StrandingStep(r, n, c, d);
    } else {
      TuplesStep(r, n);
      var ops := CompletedOp(r.acts[n], r.states[i]);
      assert ops != [];
      OrphanStep(Contents(r.states[n].tuples), ops[0], c, d);
    }
  }
}
