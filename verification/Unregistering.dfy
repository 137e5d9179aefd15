// What commits of the persistent store do to its tuples, and what an
// unregistration that runs beside others leaves behind
// (crates/acp/src/persistent.rs, `delete_doc_tuples`).

module Unregistering {
  import opened Options
  import opened Text
  import opened RelationKeys
  import opened PendingKeys
  import opened TupleStores
  import opened Ownership
  import opened RegisterOnce

  // ----- What commits do -----

  // A commit that succeeds applies its operation to the tuples of that instant,
  // except that an unregistration takes away what its own snapshot showed.
  datatype Event = Whole(op: Op) | Sweep(seen: set<RelationTuple>)

  function Outcome(ts: set<RelationTuple>, e: Event): set<RelationTuple>
  {
    match e
    case Whole(op) => Effect(ts, op)
    case Sweep(seen) => ts - seen
  }

  function EventOf(call: Call, snap: KeyValues): seq<Event>
  {
    match call
    case Register(o, c, d) => [Whole(RegisterDocAtomic(o, c, d))]
    case Unregister(c, d) => [Sweep(Of(c, d, Contents(TuplesIn(snap))))]
    case Put(t) => [Whole(PutTuple(t))]
    case Delete(t) => [Whole(DeleteTuple(t))]
    case Record(_) => []
    case Clear(_) => []
  }

  predicate Succeeds(s: State, a: Action, s': State)
  {
    a.Commit? && s'.commits > s.commits && InTxn(PhaseOf(s, a.pid))
  }

  // What a step does to the tuples, if anything.
  function Events(s: State, a: Action, s': State): seq<Event>
  {
    if Succeeds(s, a, s') then EventOf(PhaseOf(s, a.pid).call, PhaseOf(s, a.pid).snap) else []
  }

  function Replay(ts: set<RelationTuple>, es: seq<Event>): set<RelationTuple>
  {
    if es == [] then ts else Outcome(Replay(ts, es[..|es| - 1]), es[|es| - 1])
  }

  lemma TupleByKey(s: State, t: RelationTuple)
    requires WellKeyed(s.kv) && ValidTuple(t)
    ensures t in TuplesOf(s) <==> StorageKey(t) in s.kv
  {
    HasByKey(TuplesIn(s.kv), t);
    TupleKeyHoldsNoRecord(s.kv, t);
  }

  lemma AppliedDelete(kv: KeyValues, k: Bytes)
    ensures Applied(kv, map[k := None]) == kv - {k}
  {
  }

  lemma CommitApplies(s: State, p: Pid, s': State)
    requires Inv(s) && Next(s, Commit(p), s') && Succeeds(s, Commit(p), s')
    ensures WellFormedCall(PhaseOf(s, p).call)
    ensures s'.kv == Applied(s.kv, Writes(PhaseOf(s, p).call, PhaseOf(s, p).snap))
    ensures PhaseOf(s', p) == Returned(PhaseOf(s, p).call, SuccessOf(PhaseOf(s, p).call))
  {
    assert TxnInv(s, PhaseOf(s, p));
  }

  lemma CommitIsEffect(s: State, p: Pid, s': State)
    requires Inv(s) && Next(s, Commit(p), s') && Succeeds(s, Commit(p), s')
    ensures TuplesOf(s') == Replay(TuplesOf(s), EventOf(PhaseOf(s, p).call, PhaseOf(s, p).snap))
  {
    var call := PhaseOf(s, p).call;
    var es := EventOf(call, PhaseOf(s, p).snap);
    CommitIsOutcome(s, p, s');
    if es != [] { ReplayOne(TuplesOf(s), es[0]); }
  }

  lemma CommitIsOutcome(s: State, p: Pid, s': State)
    requires Inv(s) && Next(s, Commit(p), s') && Succeeds(s, Commit(p), s')
    ensures var es := EventOf(PhaseOf(s, p).call, PhaseOf(s, p).snap);
            TuplesOf(s') == if es == [] then TuplesOf(s) else Outcome(TuplesOf(s), es[0])
  {
    var call := PhaseOf(s, p).call;
    if call.Register? {
      CommitRegisters(s, p, s', call.owner, call.collection, call.doc);
    } else if call.Unregister? {
      SweepTakesSnapshot(s, p, s', call.collection, call.doc);
    } else {
      CommitWrites(s, p, s');
    }
  }

  lemma CommitRegisters(s: State, p: Pid, s': State, o: Bytes, c: Bytes, d: Bytes)
    requires Inv(s) && Next(s, Commit(p), s') && Succeeds(s, Commit(p), s') && PhaseOf(s, p).call == Register(o, c, d)
    ensures TuplesOf(s') == Effect(TuplesOf(s), RegisterDocAtomic(o, c, d))
  {
    CommitApplies(s, p, s');
    WonMeansInserted(s, p, s', o, c, d);
  }

  lemma CommitWrites(s: State, p: Pid, s': State)
    requires Inv(s) && Next(s, Commit(p), s') && Succeeds(s, Commit(p), s')
    requires !PhaseOf(s, p).call.Register? && !PhaseOf(s, p).call.Unregister?
    ensures var es := EventOf(PhaseOf(s, p).call, PhaseOf(s, p).snap);
            TuplesOf(s') == if es == [] then TuplesOf(s) else Outcome(TuplesOf(s), es[0])
  {
    CommitApplies(s, p, s');
    WriteIsEffect(s.kv, PhaseOf(s, p).call, PhaseOf(s, p).snap);
  }

  // What a commit does to the owed records beside the tuples: a record is written
  // or cleared, and no other call touches one.
  lemma OwedAfterCommit(s: State, p: Pid, s': State)
    requires Inv(s) && Next(s, Commit(p), s') && Succeeds(s, Commit(p), s')
    ensures var call := PhaseOf(s, p).call;
            OwedIn(s'.kv) ==
            if call.Record? then OwedIn(s.kv)[KeyOf(call.owed) := call.owed]
            else if call.Clear? then OwedIn(s.kv) - {KeyOf(call.owed)}
            else OwedIn(s.kv)
  {
    CommitApplies(s, p, s');
    OwedAfterWrites(s.kv, PhaseOf(s, p).call, PhaseOf(s, p).snap);
  }

  lemma OwedAfterWrites(kv: KeyValues, call: Call, snap: KeyValues)
    requires WellKeyed(kv) && WellFormedCall(call)
    ensures OwedIn(Applied(kv, Writes(call, snap))) ==
            if call.Record? then OwedIn(kv)[KeyOf(call.owed) := call.owed]
            else if call.Clear? then OwedIn(kv) - {KeyOf(call.owed)}
            else OwedIn(kv)
  {
    if call.Record? {
      AppliedPut(kv, KeyOf(call.owed), OwedEntry(call.owed));
      OwedPut(kv, KeyOf(call.owed), call.owed);
    } else if call.Clear? {
      AppliedDelete(kv, KeyOf(call.owed));
      OwedDelete(kv, KeyOf(call.owed));
    } else {
      forall k | k in Writes(call, snap) ensures !(PENDING_PREFIX <= k) {
        NotAnOwedKey(call, snap, k);
      }
      TupleWritesKeepOwed(kv, Writes(call, snap));
    }
  }

  lemma OwedPut(kv: KeyValues, k: Bytes, o: PendingRegistration)
    ensures OwedIn(kv[k := OwedEntry(o)]) == OwedIn(kv)[k := o]
  {
  }

  lemma OwedDelete(kv: KeyValues, k: Bytes)
    ensures OwedIn(kv - {k}) == OwedIn(kv) - {k}
  {
  }

  lemma NotAnOwedKey(call: Call, snap: KeyValues, k: Bytes)
    requires WellFormedCall(call) && !call.Record? && !call.Clear? && k in Writes(call, snap)
    ensures !(PENDING_PREFIX <= k)
  {
    match call {
      case Register(o, c, d) => FamiliesNeverMeet(c, d, OwnerTuple(o, c, d), [], [], []);
      case Unregister(c, d) => assert k[4] == DocPrefix(c, d)[4] == '/' && PENDING_PREFIX[4] == '-';
      case Put(t) => FamiliesNeverMeet(t.collection, t.doc, t, [], [], []);
      case Delete(t) => FamiliesNeverMeet(t.collection, t.doc, t, [], [], []);
    }
  }

  lemma TupleWritesKeepOwed(kv: KeyValues, w: map<Bytes, Option<Entry>>)
    requires WellKeyed(kv)
    requires forall k :: k in w ==> !(PENDING_PREFIX <= k) && (w[k].Some? ==> w[k].value.TupleEntry?)
    ensures OwedIn(Applied(kv, w)) == OwedIn(kv)
  {
    forall k | k in kv && kv[k].OwedEntry? ensures k !in w {
      OwedKeyHasPrefix(kv, k);
    }
    OtherWritesKeepOwed(kv, w);
  }

  lemma OwedKeyHasPrefix(kv: KeyValues, k: Bytes)
    requires WellKeyed(kv) && k in kv && kv[k].OwedEntry?
    ensures PENDING_PREFIX <= k
  {
    var r := kv[k].owed;
    FamiliesNeverMeet([], [], RelationTuple([], [], [], []), r.policy, r.resource, r.doc);
  }

  lemma OtherWritesKeepOwed(kv: KeyValues, w: map<Bytes, Option<Entry>>)
    requires forall k :: k in w ==> (w[k].Some? ==> w[k].value.TupleEntry?) && !(k in kv && kv[k].OwedEntry?)
    ensures OwedIn(Applied(kv, w)) == OwedIn(kv)
  {
  }

  lemma ReplayOne(ts: set<RelationTuple>, e: Event)
    ensures Replay(ts, [e]) == Outcome(ts, e)
  {
    assert [e][..0] == [];
  }

  lemma WriteIsEffect(kv: KeyValues, call: Call, snap: KeyValues)
    requires WellKeyed(kv) && WellFormedCall(call) && !call.Register? && !call.Unregister?
    ensures var ts, es := Contents(TuplesIn(kv)), EventOf(call, snap);
            Contents(TuplesIn(Applied(kv, Writes(call, snap)))) == if es == [] then ts else Outcome(ts, es[0])
  {
    match call {
      case Put(t) => PutEntry(kv, t); AppliedPut(kv, StorageKey(t), TupleEntry(t));
      case Delete(t) => DeleteEntry(kv, t); AppliedDelete(kv, StorageKey(t));
      case Record(o) => OwedWriteKeepsTuples(kv, o, Some(OwedEntry(o)));
      case Clear(o) => OwedWriteKeepsTuples(kv, o, None);
    }
  }

  lemma OwedWriteKeepsTuples(kv: KeyValues, o: PendingRegistration, e: Option<Entry>)
    requires WellKeyed(kv) && Recordable(o) && (e.Some? ==> e.value.OwedEntry?)
    ensures TuplesIn(Applied(kv, map[KeyOf(o) := e])) == TuplesIn(kv)
  {
    var k := KeyOf(o);
    if k in kv && kv[k].TupleEntry? {
      var t := kv[k].tuple;
      FamiliesNeverMeet(t.collection, t.doc, t, o.policy, o.resource, o.doc);
    }
  }

  lemma SweepTakesSnapshot(s: State, p: Pid, s': State, c: Bytes, d: Bytes)
    requires Inv(s) && Next(s, Commit(p), s') && Succeeds(s, Commit(p), s')
    requires PhaseOf(s, p).call == Unregister(c, d)
    ensures TuplesOf(s') == TuplesOf(s) - Of(c, d, Contents(TuplesIn(PhaseOf(s, p).snap)))
  {
    var ph := PhaseOf(s, p);
    assert TxnInv(s, ph);
    AppliedIsWellKeyed(s.kv, ph.call, ph.snap);
    forall t ensures t in TuplesOf(s') <==> t in TuplesOf(s) && t !in Of(c, d, Contents(TuplesIn(ph.snap))) {
      if ValidTuple(t) {
        TupleByKey(s, t);
        TupleByKey(s', t);
        InSnapshot(ph.snap, t, c, d);
      }
    }
  }

  lemma InSnapshot(snap: KeyValues, t: RelationTuple, c: Bytes, d: Bytes)
    requires WellKeyed(snap) && ValidTuple(t) && ValidDocument(c, d)
    ensures t in Of(c, d, Contents(TuplesIn(snap))) <==> StorageKey(t) in snap && DocPrefix(c, d) <= StorageKey(t)
  {
    HasByKey(TuplesIn(snap), t);
    TupleKeyHoldsNoRecord(snap, t);
    DocScanIsExact(t, c, d);
  }

  lemma {:induction false} StepEvents(r: Run, n: nat)
    requires ValidRun(r) && n < |r.acts|
    ensures var es := Events(r.states[n], r.acts[n], r.states[n + 1]);
            |es| <= 1 && TuplesOf(r.states[n + 1]) == Replay(TuplesOf(r.states[n]), es)
  {
    var s, a, s' := r.states[n], r.acts[n], r.states[n + 1];
    InvHolds(r, n);
    assert StepAt(r, n);
    if Succeeds(s, a, s') { CommitIsEffect(s, a.pid, s'); }
  }

  function Log(r: Run, n: nat): seq<Event>
    requires |r.states| == |r.acts| + 1 && n <= |r.acts|
  {
    if n == 0 then [] else Log(r, n - 1) + Events(r.states[n - 1], r.acts[n - 1], r.states[n])
  }

  // The tuples of any run are the replay of its successful commits in commit
  // order: each put, delete and winning registration as the atomic operation,
  // each unregistration as the removal of what it saw.
  lemma {:induction false} TuplesAreReplay(r: Run, n: nat)
    requires ValidRun(r) && n <= |r.acts|
    ensures TuplesOf(r.states[n]) == Replay(TuplesOf(r.states[0]), Log(r, n))
  {
    if n > 0 {
      TuplesAreReplay(r, n - 1);
      OneMoreCommit(r, n - 1, TuplesOf(r.states[0]), Log(r, n - 1));
    }
  }

  lemma {:induction false} OneMoreCommit(r: Run, n: nat, start: set<RelationTuple>, log: seq<Event>)
    requires ValidRun(r) && n < |r.acts| && TuplesOf(r.states[n]) == Replay(start, log)
    ensures TuplesOf(r.states[n + 1]) == Replay(start, log + Events(r.states[n], r.acts[n], r.states[n + 1]))
  {
    StepEvents(r, n);
    ReplayMore(start, log, Events(r.states[n], r.acts[n], r.states[n + 1]), TuplesOf(r.states[n]), TuplesOf(r.states[n + 1]));
  }

  lemma {:induction false} ReplayMore(start: set<RelationTuple>, log: seq<Event>, es: seq<Event>,
                                      ts: set<RelationTuple>, ts': set<RelationTuple>)
    requires |es| <= 1 && ts == Replay(start, log) && ts' == Replay(ts, es)
    ensures ts' == Replay(start, log + es)
  {
    if es == [] {
      assert log + es == log;
    } else {
      assert (log + es)[..|log + es| - 1] == log && es[..0] == [];
    }
  }

  // ----- Unregistering under concurrency -----

  // Step `i` commits the put or the registration that brings `t` into the store.
  ghost predicate Lands(r: Run, i: nat, t: RelationTuple)
    requires ValidRun(r)
  {
    && i < |r.acts| && r.acts[i].Commit?
    && t !in TuplesOf(r.states[i]) && t in TuplesOf(r.states[i + 1])
    && InTxn(PhaseOf(r.states[i], r.acts[i].pid))
    && var call := PhaseOf(r.states[i], r.acts[i].pid).call;
       call == Put(t) || (call.Register? && t == OwnerTuple(call.owner, call.collection, call.doc))
  }

  // `t` landed at `i`, between steps `b` and `j`, and nothing took it away since.
  ghost predicate LandsAndStays(r: Run, b: nat, i: nat, j: nat, t: RelationTuple)
    requires ValidRun(r)
  {
    b < i < j < |r.states| && Lands(r, i, t) && forall n :: i < n <= j ==> t in TuplesOf(r.states[n])
  }

  ghost predicate Survives(r: Run, b: nat, j: nat, t: RelationTuple)
    requires ValidRun(r)
  {
    exists i: nat :: LandsAndStays(r, b, i, j, t)
  }

  // Commits and the stamps they leave only grow.
  lemma {:induction false} StampsGrow(r: Run, i: nat, j: nat, k: Bytes, at: nat)
    requires ValidRun(r) && i <= j < |r.states|
    ensures r.states[i].commits <= r.states[j].commits
    ensures ChangedAfter(r.states[i], k, at) ==> ChangedAfter(r.states[j], k, at)
    decreases j
  {
    if i < j {
      StampsGrow(r, i, j - 1, k, at);
      InvHolds(r, j - 1);
      assert StepAt(r, j - 1);
    }
  }

  // The last time `k` came into the store.
  lemma {:induction false} LastLanding(r: Run, b: nat, j: nat, k: Bytes) returns (i: nat)
    requires ValidRun(r) && b <= j < |r.states| && k !in r.states[b].kv && k in r.states[j].kv
    ensures b <= i < j && k !in r.states[i].kv && forall n :: i < n <= j ==> k in r.states[n].kv
    decreases j
  {
    if k in r.states[j - 1].kv { i := LastLanding(r, b, j - 1, k); } else { i := j - 1; }
  }

  // Only a put or a registration of it brings a tuple's key in.
  lemma LandingStep(r: Run, i: nat, t: RelationTuple)
    requires ValidRun(r) && i < |r.acts| && ValidTuple(t)
    requires StorageKey(t) !in r.states[i].kv && StorageKey(t) in r.states[i + 1].kv
    ensures Lands(r, i, t)
  {
    var s, a, s' := r.states[i], r.acts[i], r.states[i + 1];
    InvHolds(r, i);
    InvHolds(r, i + 1);
    assert StepAt(r, i);
    TupleByKey(s, t);
    TupleByKey(s', t);
    assert TxnInv(s, PhaseOf(s, a.pid));
    LandingCall(PhaseOf(s, a.pid).call, PhaseOf(s, a.pid).snap, t);
  }

  lemma LandingCall(call: Call, snap: KeyValues, t: RelationTuple)
    requires WellFormedCall(call) && ValidTuple(t)
    requires StorageKey(t) in Writes(call, snap) && Writes(call, snap)[StorageKey(t)].Some?
    ensures call == Put(t) || (call.Register? && t == OwnerTuple(call.owner, call.collection, call.doc))
  {
    match call {
      case Register(o, c, d) => OwnerKeyIsUnder(o, c, d); StorageKeyIsInjective(t, OwnerTuple(o, c, d));
      case Put(u) => StorageKeyIsInjective(t, u);
      case Record(o) => FamiliesNeverMeet(t.collection, t.doc, t, o.policy, o.resource, o.doc);
      case _ =>
    }
  }

  // A tuple that landed inside the call was not in its snapshot: had it been,
  // the removal would have met a changed key and the commit a conflict.
  lemma LandedIsUnseen(r: Run, p: Pid, b: nat, i: nat, j: nat, t: RelationTuple, c: Bytes, d: Bytes)
    requires ValidRun(r) && Running(r, p, b, j) && j < |r.acts| && r.acts[j] == Commit(p)
    requires r.acts[b].call == Unregister(c, d) && Succeeds(r.states[j], Commit(p), r.states[j + 1])
    requires ValidTuple(t) && ValidDocument(c, d) && t.collection == c && t.doc == d && LandsAndStays(r, b, i, j, t)
    ensures StorageKey(t) !in r.states[b].kv
  {
    LandedIsStamped(r, b, i, j, t);
    DocScanIsExact(t, c, d);
    RemovalInRun(r, p, b, j, c, d, StorageKey(t));
  }

  lemma LandedIsStamped(r: Run, b: nat, i: nat, j: nat, t: RelationTuple)
    requires ValidRun(r) && ValidTuple(t) && LandsAndStays(r, b, i, j, t)
    ensures StorageKey(t) in r.states[j].kv && ChangedAfter(r.states[j], StorageKey(t), r.states[b].commits)
  {
    InvHolds(r, j);
    TupleByKey(r.states[j], t);
    LandingStamps(r, b, i, t);
    StampsGrow(r, i + 1, j, StorageKey(t), r.states[b].commits);
  }

  lemma RemovalInRun(r: Run, p: Pid, b: nat, j: nat, c: Bytes, d: Bytes, k: Bytes)
    requires ValidRun(r) && Running(r, p, b, j) && j < |r.acts| && r.acts[j] == Commit(p)
    requires r.acts[b].call == Unregister(c, d) && Succeeds(r.states[j], Commit(p), r.states[j + 1])
    requires k in r.states[j].kv && DocPrefix(c, d) <= k && ChangedAfter(r.states[j], k, r.states[b].commits)
    ensures k !in r.states[b].kv
  {
    assert StepAt(r, j);
    if k in r.states[b].kv { RemovalMeetsNoChange(r.states[j], p, r.states[j + 1], c, d, k); }
  }

  lemma RemovalMeetsNoChange(s: State, p: Pid, s': State, c: Bytes, d: Bytes, k: Bytes)
    requires Next(s, Commit(p), s') && Succeeds(s, Commit(p), s') && PhaseOf(s, p).call == Unregister(c, d)
    requires k in PhaseOf(s, p).snap && DocPrefix(c, d) <= k && k in s.kv
    ensures !ChangedAfter(s, k, PhaseOf(s, p).at)
  {
    var ph := PhaseOf(s, p);
    assert k in Writes(ph.call, ph.snap) && Writes(ph.call, ph.snap)[k] == None;
  }

  lemma LandingStamps(r: Run, b: nat, i: nat, t: RelationTuple)
    requires ValidRun(r) && b <= i && Lands(r, i, t) && ValidTuple(t)
    ensures ChangedAfter(r.states[i + 1], StorageKey(t), r.states[b].commits)
  {
    InvHolds(r, i);
    InvHolds(r, i + 1);
    TupleByKey(r.states[i], t);
    TupleByKey(r.states[i + 1], t);
    StampsGrow(r, b, i, StorageKey(t), 0);
    assert StepAt(r, i);
  }

  // `delete_doc_tuples` scans without validation, so it is not an atomic "delete
  // all". What a committed unregistration leaves of its document is exactly what
  // was put or registered while it ran and not taken away again.
  lemma UnregisterLeaves(r: Run, p: Pid, b: nat, j: nat, c: Bytes, d: Bytes, t: RelationTuple)
    requires ValidRun(r) && Running(r, p, b, j) && j < |r.acts| && r.acts[j] == Commit(p)
    requires r.acts[b].call == Unregister(c, d) && Succeeds(r.states[j], Commit(p), r.states[j + 1])
    requires t.collection == c && t.doc == d
    ensures t in TuplesOf(r.states[j + 1]) <==> Survives(r, b, j, t)
  {
    var s, s' := r.states[j], r.states[j + 1];
    InvHolds(r, j);
    assert StepAt(r, j);
    assert TxnInv(s, PhaseOf(s, p));
    SweepTakesSnapshot(s, p, s', c, d);
    if t in TuplesOf(s') {
      SurvivorLanded(r, p, b, j, c, d, t);
    }
    if Survives(r, b, j, t) {
      var i: nat :| LandsAndStays(r, b, i, j, t);
      ValidInStore(s, t);
      LandedIsUnseen(r, p, b, i, j, t, c, d);
      InSnapshot(r.states[b].kv, t, c, d);
    }
  }

  lemma ValidInStore(s: State, t: RelationTuple)
    requires WellKeyed(s.kv) && t in TuplesOf(s)
    ensures ValidTuple(t)
  {
  }

  lemma SurvivorLanded(r: Run, p: Pid, b: nat, j: nat, c: Bytes, d: Bytes, t: RelationTuple)
    requires ValidRun(r) && Running(r, p, b, j) && r.acts[b].call == Unregister(c, d) && ValidDocument(c, d)
    requires t in TuplesOf(r.states[j]) && t !in Of(c, d, Contents(TuplesIn(r.states[b].kv)))
    requires t.collection == c && t.doc == d
    ensures Survives(r, b, j, t)
  {
    var k := StorageKey(t);
    InvHolds(r, b);
    InvHolds(r, j);
    ValidInStore(r.states[j], t);
    TupleByKey(r.states[j], t);
    InSnapshot(r.states[b].kv, t, c, d);
    DocScanIsExact(t, c, d);
    assert StepAt(r, b);
    var i := LastLanding(r, b + 1, j, k);
    LandingStep(r, i, t);
    forall n | i < n <= j ensures t in TuplesOf(r.states[n]) {
      InvHolds(r, n);
      TupleByKey(r.states[n], t);
    }
    assert LandsAndStays(r, b, i, j, t);
  }

  // So it leaves the document empty if and only if nothing did.
  lemma UnregisterEmptiesIff(r: Run, p: Pid, b: nat, j: nat, c: Bytes, d: Bytes)
    requires ValidRun(r) && Running(r, p, b, j) && j < |r.acts| && r.acts[j] == Commit(p)
    requires r.acts[b].call == Unregister(c, d) && Succeeds(r.states[j], Commit(p), r.states[j + 1])
    ensures Of(c, d, TuplesOf(r.states[j + 1])) == {} <==>
            forall t: RelationTuple :: t.collection == c && t.doc == d ==> !Survives(r, b, j, t)
  {
    forall t: RelationTuple | t.collection == c && t.doc == d
      ensures t in Of(c, d, TuplesOf(r.states[j + 1])) <==> Survives(r, b, j, t)
    {
      UnregisterLeaves(r, p, b, j, c, d, t);
    }
  }

  // ----- Orphans, under every interleaving -----

  predicate OrphanedIn(r: Run, i: nat, c: Bytes, d: Bytes)
  {
    i < |r.states| && Orphaned(TuplesOf(r.states[i]), c, d)
  }

  ghost predicate SucceedsAt(r: Run, i: nat)
    requires ValidRun(r)
  {
    i < |r.acts| && Succeeds(r.states[i], r.acts[i], r.states[i + 1])
  }

  // Step `i` commits a put of one of the document's tuples while it has no owner.
  ghost predicate PutStrands(r: Run, i: nat, c: Bytes, d: Bytes)
    requires ValidRun(r)
  {
    && SucceedsAt(r, i)
    && var call := PhaseOf(r.states[i], r.acts[i].pid).call;
       call.Put? && Strands(TuplesOf(r.states[i]), PutTuple(call.tuple), c, d)
  }

  // Of what landed during the unregistration begun at `b`, something is still
  // there, but no owner.
  ghost predicate LeavesOrphans(r: Run, b: nat, i: nat, c: Bytes, d: Bytes)
    requires ValidRun(r)
  {
    && (exists t: RelationTuple :: t.collection == c && t.doc == d && Survives(r, b, i, t))
    && (forall o :: !Survives(r, b, i, OwnerTuple(o, c, d)))
  }

  // Step `i` commits such an unregistration of the document.
  ghost predicate SweepStrands(r: Run, i: nat, c: Bytes, d: Bytes)
    requires ValidRun(r)
  {
    && SucceedsAt(r, i) && PhaseOf(r.states[i], r.acts[i].pid).call == Unregister(c, d)
    && exists b: nat :: Running(r, r.acts[i].pid, b, i) && LeavesOrphans(r, b, i, c, d)
  }

  lemma SweepOrphansIff(r: Run, b: nat, i: nat, c: Bytes, d: Bytes)
    requires ValidRun(r) && SucceedsAt(r, i) && PhaseOf(r.states[i], r.acts[i].pid).call == Unregister(c, d)
    requires Running(r, r.acts[i].pid, b, i)
    ensures OrphanedIn(r, i + 1, c, d) <==> LeavesOrphans(r, b, i, c, d)
  {
    var ts := TuplesOf(r.states[i + 1]);
    forall t: RelationTuple | t.collection == c && t.doc == d ensures t in Of(c, d, ts) <==> Survives(r, b, i, t) {
      UnregisterLeaves(r, r.acts[i].pid, b, i, c, d, t);
    }
    forall o ensures o in OwnersOf(ts, c, d) <==> Survives(r, b, i, OwnerTuple(o, c, d)) {
      OwnerMeansTuple(ts, c, d, o);
      assert OwnerTuple(o, c, d) in ts <==> OwnerTuple(o, c, d) in Of(c, d, ts);
    }
    if OrphanedIn(r, i + 1, c, d) {
      var t :| t in Of(c, d, ts);
      assert Survives(r, b, i, t);
    }
  }

  // What a step of another kind does to the document's orphanhood.
  lemma CallOrphans(r: Run, i: nat, c: Bytes, d: Bytes)
    requires ValidRun(r) && RunCalls(r, NoOwnerCalls()) && i < |r.acts|
    requires SucceedsAt(r, i) ==> PhaseOf(r.states[i], r.acts[i].pid).call != Unregister(c, d)
    ensures PutStrands(r, i, c, d) ==> OrphanedIn(r, i + 1, c, d)
    ensures !OrphanedIn(r, i, c, d) && OrphanedIn(r, i + 1, c, d) ==> PutStrands(r, i, c, d)
  {
    var s, s' := r.states[i], r.states[i + 1];
    StepEvents(r, i);
    CallsHold(r, NoOwnerCalls(), i);
    var es := Events(s, r.acts[i], s');
    if es != [] {
      ReplayOne(TuplesOf(s), es[0]);
      if es[0].Whole? {
        OrphanStep(TuplesOf(s), es[0].op, c, d);
      } else {
        var call := PhaseOf(s, r.acts[i].pid).call;
        assert call.collection != c || call.doc != d;
        assert Of(c, d, TuplesOf(s')) == Of(c, d, TuplesOf(s));
      }
    }
  }

  lemma StepOrphans(r: Run, i: nat, c: Bytes, d: Bytes)
    requires ValidRun(r) && RunCalls(r, NoOwnerCalls()) && i < |r.acts|
    ensures PutStrands(r, i, c, d) || SweepStrands(r, i, c, d) ==> OrphanedIn(r, i + 1, c, d)
    ensures !OrphanedIn(r, i, c, d) && OrphanedIn(r, i + 1, c, d) ==> PutStrands(r, i, c, d) || SweepStrands(r, i, c, d)
  {
    if SucceedsAt(r, i) && PhaseOf(r.states[i], r.acts[i].pid).call == Unregister(c, d) {
      var b := FindBegin(r, r.acts[i].pid, i);
      SweepOrphansIff(r, b, i, c, d);
      if SweepStrands(r, i, c, d) {
        var b': nat :| Running(r, r.acts[i].pid, b', i) && LeavesOrphans(r, b', i, c, d);
        SweepOrphansIff(r, b', i, c, d);
      }
    } else {
      CallOrphans(r, i, c, d);
    }
  }

  // A run of the persistent store ever leaves a document with tuples and no owner
  // if and only if a put of its tuples commits while it has none, or an
  // unregistration commits of whose newcomers some tuple but no owner is left.
  lemma RunOrphansIff(r: Run, c: Bytes, d: Bytes)
    requires ValidRun(r) && RunCalls(r, NoOwnerCalls()) && !OrphanedIn(r, 0, c, d)
    ensures (exists i: nat :: OrphanedIn(r, i, c, d)) <==>
            (exists i: nat :: PutStrands(r, i, c, d)) || (exists i: nat :: SweepStrands(r, i, c, d))
  {
    if i: nat :| OrphanedIn(r, i, c, d) {
      var n := StrandingStep(r, i, c, d);
    }
    if i: nat :| PutStrands(r, i, c, d) { StepOrphans(r, i, c, d); }
    if i: nat :| SweepStrands(r, i, c, d) { StepOrphans(r, i, c, d); }
  }

  lemma {:induction false} StrandingStep(r: Run, i: nat, c: Bytes, d: Bytes) returns (n: nat)
    requires ValidRun(r) && RunCalls(r, NoOwnerCalls()) && !OrphanedIn(r, 0, c, d) && OrphanedIn(r, i, c, d)
    ensures n < i && (PutStrands(r, n, c, d) || SweepStrands(r, n, c, d))
    decreases i
  {
    n := i - 1;
    if OrphanedIn(r, n, c, d) { n := StrandingStep(r, n, c, d); } else { StepOrphans(r, n, c, d); }
  }

  // ----- When a document has no owner -----

  // Step `i` commits a registration of the document.
  ghost predicate WinsAtCommit(r: Run, i: nat, c: Bytes, d: Bytes)
    requires ValidRun(r)
  {
    && SucceedsAt(r, i)
    && var call := PhaseOf(r.states[i], r.acts[i].pid).call;
       call.Register? && call.collection == c && call.doc == d
  }

  // Step `u` commits an unregistration of the document during which no
  // registration of it landed and stayed.
  ghost predicate SweepsOwners(r: Run, u: nat, c: Bytes, d: Bytes)
    requires ValidRun(r)
  {
    && SucceedsAt(r, u) && PhaseOf(r.states[u], r.acts[u].pid).call == Unregister(c, d)
    && exists b: nat :: Running(r, r.acts[u].pid, b, u) && forall o :: !Survives(r, b, u, OwnerTuple(o, c, d))
  }

  lemma SweepLeavesOwners(r: Run, b: nat, u: nat, c: Bytes, d: Bytes)
    requires ValidRun(r) && SucceedsAt(r, u) && PhaseOf(r.states[u], r.acts[u].pid).call == Unregister(c, d)
    requires Running(r, r.acts[u].pid, b, u)
    ensures Owners(r.states[u + 1], c, d) == {} <==> forall o :: !Survives(r, b, u, OwnerTuple(o, c, d))
  {
    var ts := TuplesOf(r.states[u + 1]);
    forall o ensures o in OwnersOf(ts, c, d) <==> Survives(r, b, u, OwnerTuple(o, c, d)) {
      OwnerMeansTuple(ts, c, d, o);
      UnregisterLeaves(r, r.acts[u].pid, b, u, c, d, OwnerTuple(o, c, d));
    }
  }

  lemma SweepStep(r: Run, u: nat, c: Bytes, d: Bytes)
    requires ValidRun(r) && SucceedsAt(r, u) && PhaseOf(r.states[u], r.acts[u].pid).call == Unregister(c, d)
    ensures Owners(r.states[u + 1], c, d) <= Owners(r.states[u], c, d)
    ensures Owners(r.states[u + 1], c, d) == {} <==> SweepsOwners(r, u, c, d)
  {
    var b := FindBegin(r, r.acts[u].pid, u);
    SweepLeavesOwners(r, b, u, c, d);
    if SweepsOwners(r, u, c, d) {
      var b': nat :| Running(r, r.acts[u].pid, b', u) && forall o :: !Survives(r, b', u, OwnerTuple(o, c, d));
      SweepLeavesOwners(r, b', u, c, d);
    }
    StepEvents(r, u);
    ReplayOne(TuplesOf(r.states[u]), Events(r.states[u], r.acts[u], r.states[u + 1])[0]);
  }

  // A step that is no unregistration of the document.
  lemma OtherStep(r: Run, i: nat, c: Bytes, d: Bytes)
    requires ValidRun(r) && RunCalls(r, NoOwnerCalls()) && i < |r.acts|
    requires SucceedsAt(r, i) ==> PhaseOf(r.states[i], r.acts[i].pid).call != Unregister(c, d)
    ensures WinsAtCommit(r, i, c, d) ==> Owners(r.states[i + 1], c, d) != {}
    ensures !WinsAtCommit(r, i, c, d) ==> Owners(r.states[i + 1], c, d) == Owners(r.states[i], c, d)
  {
    var s, s' := r.states[i], r.states[i + 1];
    StepEvents(r, i);
    CallsHold(r, NoOwnerCalls(), i);
    var es := Events(s, r.acts[i], s');
    if es != [] {
      ReplayOne(TuplesOf(s), es[0]);
      if es[0].Whole? {
        Ownership.OwnersStep(TuplesOf(s), es[0].op, c, d);
        if WinsAtCommit(r, i, c, d) { CommitWins(r, i, c, d); }
      } else {
        var call := PhaseOf(s, r.acts[i].pid).call;
        assert call.collection != c || call.doc != d;
        assert Of(c, d, TuplesOf(s')) == Of(c, d, TuplesOf(s));
      }
    }
  }

  lemma CommitWins(r: Run, i: nat, c: Bytes, d: Bytes)
    requires ValidRun(r) && WinsAtCommit(r, i, c, d)
    ensures var call := PhaseOf(r.states[i], r.acts[i].pid).call;
            Wins(TuplesOf(r.states[i]), RegisterDocAtomic(call.owner, c, d), c, d)
  {
    InvHolds(r, i);
    assert StepAt(r, i);
    RegisterCommitWins(r.states[i], r.acts[i].pid, r.states[i + 1], PhaseOf(r.states[i], r.acts[i].pid).call.owner, c, d);
  }

  lemma RegisterCommitWins(s: State, p: Pid, s': State, o: Bytes, c: Bytes, d: Bytes)
    requires Inv(s) && Next(s, Commit(p), s') && Succeeds(s, Commit(p), s')
    requires PhaseOf(s, p).call == Register(o, c, d)
    ensures Wins(TuplesOf(s), RegisterDocAtomic(o, c, d), c, d)
  {
    CommitApplies(s, p, s');
    WonMeansInserted(s, p, s', o, c, d);
  }

  // Unregistered at `u`, and no registration committed since.
  ghost predicate RunUnownedSince(r: Run, u: nat, j: nat, c: Bytes, d: Bytes)
    requires ValidRun(r)
  {
    u < j < |r.states| && SweepsOwners(r, u, c, d) && forall v: nat :: u < v < j ==> !WinsAtCommit(r, v, c, d)
  }

  ghost predicate RunUnowned(r: Run, h: nat, j: nat, c: Bytes, d: Bytes)
    requires ValidRun(r)
  {
    exists u: nat :: h <= u && RunUnownedSince(r, u, j, c, d)
  }

  lemma {:induction false} RunUnownedStep(r: Run, h: nat, j: nat, c: Bytes, d: Bytes)
    requires ValidRun(r) && h <= j < |r.acts|
    ensures RunUnowned(r, h, j + 1, c, d) <==>
            SweepsOwners(r, j, c, d) || (!WinsAtCommit(r, j, c, d) && RunUnowned(r, h, j, c, d))
  {
    var next := j + 1;
    if SweepsOwners(r, j, c, d) {
      assert RunUnownedSince(r, j, next, c, d);
    } else {
      if u: nat :| h <= u && RunUnownedSince(r, u, next, c, d) {
        assert RunUnownedSince(r, u, j, c, d);
      }
      if !WinsAtCommit(r, j, c, d) && RunUnowned(r, h, j, c, d) {
        var u: nat :| h <= u && RunUnownedSince(r, u, j, c, d);
        assert RunUnownedSince(r, u, next, c, d);
      }
    }
  }

  // From a state with an owner: later there is none if and only if an
  // unregistration committed in between, over which no registration survived,
  // and no registration committed after it.
  lemma {:induction false} RunOwnerlessIff(r: Run, h: nat, j: nat, c: Bytes, d: Bytes)
    requires ValidRun(r) && RunCalls(r, NoOwnerCalls()) && h <= j < |r.states| && Owners(r.states[h], c, d) != {}
    ensures Owners(r.states[j], c, d) == {} <==> RunUnowned(r, h, j, c, d)
    decreases j
  {
    if h < j {
      RunOwnerlessIff(r, h, j - 1, c, d);
      RunUnownedStep(r, h, j - 1, c, d);
      OwnersInStep(r, j - 1, c, d);
    }
  }

  lemma OwnersInStep(r: Run, i: nat, c: Bytes, d: Bytes)
    requires ValidRun(r) && RunCalls(r, NoOwnerCalls()) && i < |r.acts|
    ensures Owners(r.states[i + 1], c, d) == {} <==>
            SweepsOwners(r, i, c, d) || (!WinsAtCommit(r, i, c, d) && Owners(r.states[i], c, d) == {})
  {
    if SucceedsAt(r, i) && PhaseOf(r.states[i], r.acts[i].pid).call == Unregister(c, d) {
      SweepStep(r, i, c, d);
    } else {
      OtherStep(r, i, c, d);
    }
  }

  lemma {:induction false} RunUnownedIsOwnerless(r: Run, u: nat, j: nat, c: Bytes, d: Bytes)
    requires ValidRun(r) && RunCalls(r, NoOwnerCalls()) && RunUnownedSince(r, u, j, c, d)
    ensures Owners(r.states[j], c, d) == {}
    decreases j
  {
    OwnersInStep(r, j - 1, c, d);
    if u < j - 1 {
      assert RunUnownedSince(r, u, j - 1, c, d);
      RunUnownedIsOwnerless(r, u, j - 1, c, d);
    }
  }

  // ----- Sharing over the persistent store -----

  // Every committed put belongs to a sharing whose requestor was found, in an
  // earlier snapshot, to hold a tuple of the document: `checks[i]` is the state
  // the check of the put committed at step `i` read.
  ghost predicate PutsWereChecked(r: Run, checks: seq<nat>)
    requires ValidRun(r)
  {
    |checks| == |r.acts| && forall i: nat :: i < |r.acts| && SucceedsAt(r, i) ==> CheckedPut(r, checks[i], i)
  }

  ghost predicate CheckedPut(r: Run, h: nat, i: nat)
    requires ValidRun(r) && SucceedsAt(r, i)
  {
    var call := PhaseOf(r.states[i], r.acts[i].pid).call;
    call.Put? ==> h <= i && Of(call.tuple.collection, call.tuple.doc, TuplesOf(r.states[h])) != {}
  }

  // The put of one of the document's tuples commits at `i`; between its check and
  // its commit the document was unregistered, at `u`, and not registered again.
  ghost predicate PutOvertaken(r: Run, checks: seq<nat>, i: nat, u: nat, c: Bytes, d: Bytes)
    requires ValidRun(r) && |checks| == |r.acts|
  {
    && SucceedsAt(r, i)
    && var call := PhaseOf(r.states[i], r.acts[i].pid).call;
       && call.Put? && call.tuple.collection == c && call.tuple.doc == d
       && checks[i] <= u && RunUnownedSince(r, u, i, c, d)
  }

  // Sharing over the persistent store orphans a document if and only if an
  // unregistration's commit falls between a sharing's check and its put's commit,
  // with no registration surviving or following it, or a tuple lands between an
  // unregistration's begin and commit and stays while no registration does.
  lemma SharingOrphansIff(r: Run, checks: seq<nat>, c: Bytes, d: Bytes)
    requires ValidRun(r) && RunCalls(r, NoOwnerCalls()) && PutsWereChecked(r, checks) && !OrphanedIn(r, 0, c, d)
    ensures (exists n: nat :: OrphanedIn(r, n, c, d)) <==>
            (exists i: nat, u: nat :: PutOvertaken(r, checks, i, u, c, d)) || (exists i: nat :: SweepStrands(r, i, c, d))
  {
    if n: nat :| OrphanedIn(r, n, c, d) {
      var i := FirstStranding(r, n, c, d);
      if PutStrands(r, i, c, d) { var u := StrandIsOvertaken(r, checks, i, c, d); }
    }
    if i: nat, u: nat :| PutOvertaken(r, checks, i, u, c, d) {
      RunUnownedIsOwnerless(r, u, i, c, d);
      assert PutStrands(r, i, c, d);
      StepOrphans(r, i, c, d);
    }
    if i: nat :| SweepStrands(r, i, c, d) { StepOrphans(r, i, c, d); }
  }

  lemma {:induction false} FirstStranding(r: Run, n: nat, c: Bytes, d: Bytes) returns (i: nat)
    requires ValidRun(r) && RunCalls(r, NoOwnerCalls()) && !OrphanedIn(r, 0, c, d) && OrphanedIn(r, n, c, d)
    ensures i < n && (PutStrands(r, i, c, d) || SweepStrands(r, i, c, d))
    ensures forall m: nat :: m <= i ==> !OrphanedIn(r, m, c, d)
    decreases n
  {
    if m: nat :| m < n && OrphanedIn(r, m, c, d) {
      i := FirstStranding(r, m, c, d);
    } else {
      i := n - 1;
      assert !OrphanedIn(r, i, c, d);
      StepOrphans(r, i, c, d);
    }
  }

  lemma StrandIsOvertaken(r: Run, checks: seq<nat>, i: nat, c: Bytes, d: Bytes) returns (u: nat)
    requires ValidRun(r) && RunCalls(r, NoOwnerCalls()) && PutsWereChecked(r, checks) && PutStrands(r, i, c, d)
    requires forall m: nat :: m <= i ==> !OrphanedIn(r, m, c, d)
    ensures PutOvertaken(r, checks, i, u, c, d)
  {
    var h := checks[i];
    assert CheckedPut(r, h, i);
    assert !OrphanedIn(r, h, c, d);
    RunOwnerlessIff(r, h, i, c, d);
    u :| h <= u && RunUnownedSince(r, u, i, c, d);
  }

  // ----- It happens -----

  // A run so far, of calls the document ACP makes.
  ghost predicate Sharing(r: Run)
  {
    ValidRun(r) && RunCalls(r, NoOwnerCalls())
  }

  lemma Grow(r: Run, a: Action, s: State) returns (r': Run)
    requires Sharing(r) && Next(r.states[|r.acts|], a, s) && (a.Begin? ==> NoOwnerCalls()(a.call))
    ensures Sharing(r') && r' == Run(r.states + [s], r.acts + [a])
  {
    r' := Run(r.states + [s], r.acts + [a]);
    forall i | 0 <= i < |r'.acts| ensures StepAt(r', i) {
      if i < |r.acts| { assert StepAt(r, i); }
    }
  }

  // The end of a run.
  function End(r: Run): State
    requires |r.states| == |r.acts| + 1
  {
    r.states[|r.acts|]
  }

  // `p`, idle, registers (c, d) in a store without keys.
  lemma RegisterAlone(r: Run, p: Pid, o: Bytes, c: Bytes, d: Bytes) returns (r': Run)
    requires Sharing(r) && End(r) == State(map[], map[], 0, map[]) && ValidDocument(c, d)
    ensures Sharing(r') && r'.states[0] == r.states[0]
    ensures var k := StorageKey(OwnerTuple(o, c, d));
            End(r') == State(map[k := TupleEntry(OwnerTuple(o, c, d))], map[k := 1], 1,
                             map[p := Returned(Register(o, c, d), Won)])
  {
    var call, t := Register(o, c, d), OwnerTuple(o, c, d);
    var none: KeyValues := map[];
    r' := Grow(r, Begin(p, call), State(none, map[], 0, map[p := Open(call, none, 0)]));
    r' := Grow(r', Scan(p), State(none, map[], 0, map[p := Ready(call, none, 0)]));
    AppliedPut(none, StorageKey(t), TupleEntry(t));
    var k := StorageKey(t);
    var w := Writes(call, none);
    assert Effective(none, w) == {k} && Stamped(map[], {k}, 1) == map[k := 1];
    r' := Grow(r', Commit(p), State(map[k := TupleEntry(t)], map[k := 1], 1, map[p := Returned(call, Won)]));
  }

  // `p` begins to unregister (c, d), and has read what there is.
  lemma UnregisterOpens(r: Run, p: Pid, c: Bytes, d: Bytes) returns (r': Run)
    requires Sharing(r) && PhaseOf(End(r), p).Idle? && ValidDocument(c, d)
    ensures Sharing(r') && r'.states[0] == r.states[0]
    ensures End(r') == End(r).(procs := End(r).procs[p := Ready(Unregister(c, d), End(r).kv, End(r).commits)])
  {
    var s, call := End(r), Unregister(c, d);
    r' := Grow(r, Begin(p, call), s.(procs := s.procs[p := Open(call, s.kv, s.commits)]));
    r' := Grow(r', Scan(p), s.(procs := s.procs[p := Ready(call, s.kv, s.commits)]));
  }

  // `p` puts a new tuple.
  lemma PutCommits(r: Run, p: Pid, t: RelationTuple) returns (r': Run)
    requires Sharing(r) && PhaseOf(End(r), p).Idle? && ValidTuple(t) && t.relation != OWNER_RELATION
    requires StorageKey(t) !in End(r).kv && StorageKey(t) !in End(r).changed
    ensures Sharing(r') && r'.states[0] == r.states[0]
    ensures var s, k, n := End(r), StorageKey(t), End(r).commits + 1;
            End(r') == State(s.kv[k := TupleEntry(t)], s.changed[k := n], n, s.procs[p := Returned(Put(t), Committed)])
  {
    var s, k, call := End(r), StorageKey(t), Put(t);
    r' := Grow(r, Begin(p, call), s.(procs := s.procs[p := Open(call, s.kv, s.commits)]));
    AppliedPut(s.kv, k, TupleEntry(t));
    assert Effective(s.kv, Writes(call, s.kv)) == {k};
    assert Stamped(s.changed, {k}, s.commits + 1) == s.changed[k := s.commits + 1];
    var procs := s.procs[p := Open(call, s.kv, s.commits)];
    assert procs[p := Returned(call, Committed)] == s.procs[p := Returned(call, Committed)];
    r' := Grow(r', Commit(p), State(s.kv[k := TupleEntry(t)], s.changed[k := s.commits + 1], s.commits + 1,
                                    s.procs[p := Returned(call, Committed)]));
  }

  // `p` commits an unregistration that saw `o` only, beside which `t` came.
  lemma UnregisterCommits(r: Run, p: Pid, c: Bytes, d: Bytes, o: RelationTuple, t: RelationTuple) returns (r': Run)
    requires Sharing(r) && StorageKey(o) != StorageKey(t) && DocPrefix(c, d) <= StorageKey(o)
    requires PhaseOf(End(r), p) == Ready(Unregister(c, d), map[StorageKey(o) := TupleEntry(o)], 1)
    requires End(r).kv == map[StorageKey(o) := TupleEntry(o), StorageKey(t) := TupleEntry(t)]
    requires End(r).changed == map[StorageKey(o) := 1, StorageKey(t) := 2] && End(r).commits == 2
    ensures Sharing(r') && r'.states[0] == r.states[0]
    ensures End(r').kv == map[StorageKey(t) := TupleEntry(t)]
    ensures PhaseOf(End(r'), p) == Returned(Unregister(c, d), Committed)
  {
    var s, call := End(r), Unregister(c, d);
    var w := Writes(call, PhaseOf(s, p).snap);
    assert w == map[StorageKey(o) := None];
    AppliedDelete(s.kv, StorageKey(o));
    assert s.kv - {StorageKey(o)} == map[StorageKey(t) := TupleEntry(t)];
    r' := Grow(r, Commit(p), State(Applied(s.kv, w), Stamped(s.changed, Effective(s.kv, w), 3), 3,
                                   s.procs[p := Returned(call, Committed)]));
  }

  lemma OnlyNewcomer(s: State, t: RelationTuple, c: Bytes, d: Bytes)
    requires s.kv == map[StorageKey(t) := TupleEntry(t)] && t.relation != OWNER_RELATION
    requires t.collection == c && t.doc == d
    ensures TuplesOf(s) == {t} && Orphaned(TuplesOf(s), c, d)
  {
    assert TuplesIn(s.kv) == map[StorageKey(t) := t];
    assert TuplesIn(s.kv)[StorageKey(t)] == t;
    assert t in Of(c, d, TuplesOf(s));
  }

  // `a` registers a document and unregisters it; between the unregistration's
  // scan and its commit a sharing with `b` commits. The shared tuple survives the
  // unregistration, without an owner.
  lemma SweptDocumentKeepsNewcomer(a: Bytes, b: Bytes, c: Bytes, d: Bytes) returns (r: Run)
    requires ValidDocument(c, d)
    ensures Sharing(r) && r.states[0] == State(map[], map[], 0, map[])
    ensures TuplesOf(End(r)) == {RelationTuple(b, "reader", c, d)} && OrphanedIn(r, |r.acts|, c, d)
    ensures PhaseOf(End(r), 1) == Returned(Unregister(c, d), Committed)
  {
    var o, t := OwnerTuple(a, c, d), RelationTuple(b, "reader", c, d);
    StorageKeyIsInjective(o, t);
    assert OWNER_RELATION[0] != "reader"[0];
    r := Run([State(map[], map[], 0, map[])], []);
    r := RegisterAlone(r, 0, a, c, d);
    r := UnregisterOpens(r, 1, c, d);
    r := PutCommits(r, 2, t);
    r := UnregisterCommits(r, 1, c, d, o, t);
    OnlyNewcomer(End(r), t, c, d);
  }
}
