// Racing registrations over the optimistic store
// (crates/acp/src/persistent.rs): any number of processes open transactions on
// one versioned key-value store, scan their snapshots and commit. A commit of
// a validated scan conflicts exactly when an effective change landed in the
// scanned range after the snapshot; a plain write conflicts when its key
// changed since and no longer holds what the write would leave.

module RegisterOnce {
  import opened Options
  import opened Text
  import opened RelationKeys
  import opened PendingKeys
  import opened TupleStores
  import opened Ownership

  type Pid = nat

  datatype Call =
    | Register(owner: Bytes, collection: Bytes, doc: Bytes)
    | Unregister(collection: Bytes, doc: Bytes)
    | Put(tuple: RelationTuple)
    | Delete(tuple: RelationTuple)
    | Record(owed: PendingRegistration)
    | Clear(owed: PendingRegistration)

  // `Failed` stands for any other storage error and for a crash: nothing was
  // committed.
  datatype Verdict = Won | Lost | Committed | Conflicted | Failed

  datatype Phase =
    | Idle
    | Open(call: Call, snap: KeyValues, at: nat)
    | Ready(call: Call, snap: KeyValues, at: nat)
    | Returned(call: Call, verdict: Verdict)

  // `changed` is the commit that last changed each key's contents.
  datatype State = State(kv: KeyValues, changed: map<Bytes, nat>, commits: nat, procs: map<Pid, Phase>)

  datatype Action =
    | Begin(pid: Pid, call: Call)
    | Scan(pid: Pid)
    | Commit(pid: Pid)
    | Fail(pid: Pid)
    | Forget(pid: Pid)

  predicate WellFormedCall(call: Call)
  {
    match call
    case Register(_, c, d) => ValidDocument(c, d)
    case Unregister(c, d) => ValidDocument(c, d)
    case Put(t) => ValidTuple(t)
    case Delete(t) => ValidTuple(t)
    case Record(r) => Recordable(r)
    case Clear(r) => Recordable(r)
  }

  function PhaseOf(s: State, p: Pid): Phase
  {
    if p in s.procs then s.procs[p] else Idle
  }

  predicate InTxn(ph: Phase) { ph.Open? || ph.Ready? }

  function At(kv: KeyValues, k: Bytes): Option<Entry>
  {
    if k in kv then Some(kv[k]) else None
  }

  predicate ChangedAfter(s: State, k: Bytes, at: nat)
  {
    k in s.changed && s.changed[k] > at
  }

  predicate HasUnder(kv: KeyValues, c: Bytes, d: Bytes)
  {
    exists k :: k in kv && DocPrefix(c, d) <= k
  }

  // What a call writes, given what its transaction saw. `delete_doc_tuples`
  // deletes the keys its own scan found.
  function Writes(call: Call, snap: KeyValues): map<Bytes, Option<Entry>>
  {
    match call
    case Register(o, c, d) =>
      var t := OwnerTuple(o, c, d);
      map[StorageKey(t) := Some(TupleEntry(t))]
    case Unregister(c, d) => map k | k in snap && DocPrefix(c, d) <= k :: None
    case Put(t) => map[StorageKey(t) := Some(TupleEntry(t))]
    case Delete(t) => map[StorageKey(t) := None]
    case Record(r) => map[KeyOf(r) := Some(OwedEntry(r))]
    case Clear(r) => map[KeyOf(r) := None]
  }

  predicate RangeChanged(s: State, c: Bytes, d: Bytes, at: nat)
  {
    exists k :: k in s.changed && DocPrefix(c, d) <= k && s.changed[k] > at
  }

  predicate Conflicts(s: State, call: Call, snap: KeyValues, at: nat)
  {
    var w := Writes(call, snap);
    || (call.Register? && RangeChanged(s, call.collection, call.doc, at))
    || (exists k :: k in w && ChangedAfter(s, k, at) && At(s.kv, k) != w[k])
  }

  function Applied(kv: KeyValues, w: map<Bytes, Option<Entry>>): KeyValues
  {
    map k | k in kv.Keys + w.Keys && (k in w ==> w[k].Some?) :: if k in w then w[k].value else kv[k]
  }

  function Effective(kv: KeyValues, w: map<Bytes, Option<Entry>>): set<Bytes>
  {
    set k | k in w && At(kv, k) != w[k]
  }

  function Stamped(changed: map<Bytes, nat>, keys: set<Bytes>, n: nat): map<Bytes, nat>
  {
    map k | k in changed.Keys + keys :: if k in keys then n else changed[k]
  }

  function SuccessOf(call: Call): Verdict { if call.Register? then Won else Committed }
  function RefusalOf(call: Call): Verdict { if call.Register? then Lost else Conflicted }

  ghost predicate Next(s: State, a: Action, s': State)
  {
    var ph := PhaseOf(s, a.pid);
    match a
    case Begin(p, call) =>
      && ph.Idle? && WellFormedCall(call)
      && s' == s.(procs := s.procs[p := Open(call, s.kv, s.commits)])
    case Scan(p) =>
      && ph.Open? && (ph.call.Register? || ph.call.Unregister?)
      && s' == s.(procs := s.procs[p :=
           if ph.call.Register? && HasUnder(ph.snap, ph.call.collection, ph.call.doc)
           then Returned(ph.call, Lost)
           else Ready(ph.call, ph.snap, ph.at)])
    case Commit(p) =>
      && (ph.Ready? || (ph.Open? && !ph.call.Register? && !ph.call.Unregister?))
      && if Conflicts(s, ph.call, ph.snap, ph.at)
         then s' == s.(procs := s.procs[p := Returned(ph.call, RefusalOf(ph.call))])
         else var w := Writes(ph.call, ph.snap);
              s' == State(Applied(s.kv, w), Stamped(s.changed, Effective(s.kv, w), s.commits + 1), s.commits + 1,
                          s.procs[p := Returned(ph.call, SuccessOf(ph.call))])
    case Fail(p) => InTxn(ph) && s' == s.(procs := s.procs[p := Returned(ph.call, Failed)])
    case Forget(p) => ph.Returned? && s' == s.(procs := s.procs - {p})
  }

  ghost predicate Init(s: State)
  {
    && WellKeyed(s.kv) && s.procs == map[]
    && forall k :: k in s.changed ==> s.changed[k] <= s.commits
  }

  datatype Run = Run(states: seq<State>, acts: seq<Action>)

  ghost predicate StepAt(r: Run, i: nat)
  {
    i < |r.acts| && i + 1 < |r.states| && Next(r.states[i], r.acts[i], r.states[i + 1])
  }

  ghost predicate ValidRun(r: Run)
  {
    && |r.states| == |r.acts| + 1
    && Init(r.states[0])
    && forall i :: 0 <= i < |r.acts| ==> StepAt(r, i)
  }

  // ----- What every step keeps -----

  ghost predicate TxnInv(s: State, ph: Phase)
  {
    InTxn(ph) ==>
      && WellFormedCall(ph.call) && WellKeyed(ph.snap)
      && ph.at <= s.commits
      && (forall k :: !ChangedAfter(s, k, ph.at) ==> At(ph.snap, k) == At(s.kv, k))
      && (ph.Ready? && ph.call.Register? ==> !HasUnder(ph.snap, ph.call.collection, ph.call.doc))
  }

  ghost predicate Inv(s: State)
  {
    && WellKeyed(s.kv)
    && (forall k :: k in s.changed ==> s.changed[k] <= s.commits)
    && (forall p :: TxnInv(s, PhaseOf(s, p)))
  }

  lemma AppliedIsWellKeyed(kv: KeyValues, call: Call, snap: KeyValues)
    requires WellKeyed(kv) && WellFormedCall(call)
    ensures WellKeyed(Applied(kv, Writes(call, snap)))
  {
    var w := Writes(call, snap);
    forall k | k in w && w[k].Some?
      ensures match w[k].value
              case TupleEntry(t) => ValidTuple(t) && k == StorageKey(t)
              case OwedEntry(r) => Recordable(r) && k == KeyOf(r)
    {
    }
  }

  lemma CommitKeepsTxn(s: State, p: Pid, s': State, ph: Phase)
    requires Inv(s) && Next(s, Commit(p), s') && TxnInv(s, ph)
    ensures TxnInv(s', ph)
  {
  }

  lemma InvStep(s: State, a: Action, s': State)
    requires Inv(s) && Next(s, a, s')
    ensures Inv(s')
  {
    if a.Commit? {
      var ph := PhaseOf(s, a.pid);
      assert TxnInv(s, ph);
      AppliedIsWellKeyed(s.kv, ph.call, ph.snap);
      forall q ensures TxnInv(s', PhaseOf(s', q)) {
        if q != a.pid {
          assert PhaseOf(s', q) == PhaseOf(s, q);
          CommitKeepsTxn(s, a.pid, s', PhaseOf(s, q));
        }
      }
    } else {
      OwnTxn(s, a, s');
      forall q ensures TxnInv(s', PhaseOf(s', q)) {
        if q != a.pid {
          assert PhaseOf(s', q) == PhaseOf(s, q);
          assert TxnInv(s, PhaseOf(s, q));
        }
      }
    }
  }

  // A step without a commit changes one process only.
  lemma OwnTxn(s: State, a: Action, s': State)
    requires Inv(s) && Next(s, a, s') && !a.Commit?
    ensures s'.kv == s.kv && s'.changed == s.changed && s'.commits == s.commits && TxnInv(s', PhaseOf(s', a.pid))
  {
    assert TxnInv(s, PhaseOf(s, a.pid));
  }

  lemma {:induction false} InvHolds(r: Run, i: nat)
    requires ValidRun(r) && i < |r.states|
    ensures Inv(r.states[i])
  {
    if i > 0 {
      InvHolds(r, i - 1);
      assert StepAt(r, i - 1);
      InvStep(r.states[i - 1], r.acts[i - 1], r.states[i]);
    }
  }

  // The committed tuples of a state.
  function TuplesOf(s: State): set<RelationTuple>
  {
    Contents(TuplesIn(s.kv))
  }

  // A document's prefix is empty exactly when it has no tuples: neither another
  // document's tuples nor any owed record lies there.
  lemma HasUnderMeansRegistered(kv: KeyValues, c: Bytes, d: Bytes)
    requires WellKeyed(kv) && ValidDocument(c, d)
    ensures HasUnder(kv, c, d) <==> Of(c, d, Contents(TuplesIn(kv))) != {}
  {
    ScansMeetOnlyTuples(kv, DocPrefix(c, d));
    DocKeys(TuplesIn(kv), c, d);
    if HasUnder(kv, c, d) {
      var k :| k in kv && DocPrefix(c, d) <= k;
      assert k in TuplesIn(kv);
    }
    if k :| k in TuplesIn(kv) && DocPrefix(c, d) <= k { assert k in kv; }
  }

  lemma OwnerKeyIsUnder(o: Bytes, c: Bytes, d: Bytes)
    requires ValidDocument(c, d)
    ensures ValidTuple(OwnerTuple(o, c, d)) && DocPrefix(c, d) <= StorageKey(OwnerTuple(o, c, d))
  {
    DocScanIsExact(OwnerTuple(o, c, d), c, d);
  }

  // ----- A call's interval -----

  // `p`'s call began at step `b` and is still running after step `j - 1`.
  ghost predicate Running(r: Run, p: Pid, b: nat, j: nat)
    requires ValidRun(r)
  {
    && b < j < |r.states| && r.acts[b].Begin? && r.acts[b].pid == p
    && forall i :: b < i <= j ==>
         var ph := PhaseOf(r.states[i], p);
         InTxn(ph) && ph.call == r.acts[b].call && ph.snap == r.states[b].kv && ph.at == r.states[b].commits
  }

  lemma {:induction false} FindBegin(r: Run, p: Pid, j: nat) returns (b: nat)
    requires ValidRun(r) && j < |r.states| && InTxn(PhaseOf(r.states[j], p))
    ensures Running(r, p, b, j)
  {
    assert j > 0;
    assert StepAt(r, j - 1);
    if r.acts[j - 1].Begin? && r.acts[j - 1].pid == p {
      b := j - 1;
    } else {
      b := FindBegin(r, p, j - 1);
    }
  }

  // A key that changed since `b` was there at some instant since `b`.
  lemma {:induction false} ChangedWasPresent(r: Run, b: nat, j: nat, k: Bytes) returns (i: nat)
    requires ValidRun(r) && b <= j < |r.states| && ChangedAfter(r.states[j], k, r.states[b].commits)
    ensures b <= i <= j && k in r.states[i].kv
  {
    InvHolds(r, b);
    assert b < j;
    var s, s' := r.states[j - 1], r.states[j];
    assert StepAt(r, j - 1);
    if ChangedAfter(s, k, r.states[b].commits) {
      i := ChangedWasPresent(r, b, j - 1, k);
    } else {
      i := if k in s'.kv then j else j - 1;
    }
  }

  // ----- Linearizability -----

  // Step `j` is where `p`'s registration of (c, d) for `o` returns `v`.
  ghost predicate Returns(r: Run, p: Pid, j: nat, o: Bytes, c: Bytes, d: Bytes, v: Verdict)
    requires ValidRun(r)
  {
    && j < |r.acts| && InTxn(PhaseOf(r.states[j], p))
    && PhaseOf(r.states[j + 1], p) == Returned(Register(o, c, d), v)
  }

  // Every registration that returns true or false takes effect atomically at
  // an instant inside its call: true at its commit, which inserts the owner
  // into a document with no tuples, and false at an instant when the document
  // itself held a tuple. Nothing else it does changes the store.
  lemma RegistrationIsLinearizable(r: Run, p: Pid, j: nat, o: Bytes, c: Bytes, d: Bytes, v: Verdict)
    returns (b: nat, i: nat)
    requires ValidRun(r) && Returns(r, p, j, o, c, d, v) && v != Failed
    ensures Running(r, p, b, j) && r.acts[b].call == Register(o, c, d) && b <= i <= j
    ensures v == Won || v == Lost
    ensures Reply(TuplesOf(r.states[i]), RegisterDocAtomic(o, c, d)) == YesIf(v == Won)
    ensures v == Won ==> i == j
    ensures TuplesOf(r.states[j + 1]) ==
            if v == Won then Effect(TuplesOf(r.states[j]), RegisterDocAtomic(o, c, d)) else TuplesOf(r.states[j])
  {
    b := FindBegin(r, p, j);
    InvHolds(r, j);
    ReturnStep(r, p, j, o, c, d, v);
    if v == Won {
      i := j;
      assert StepAt(r, j);
      WonMeansInserted(r.states[j], p, r.states[j + 1], o, c, d);
    } else {
      i := HeldDuring(r, p, b, j, o, c, d);
    }
  }

  // Which steps return what: only a commit wins, and a loss changes nothing.
  lemma ReturnStep(r: Run, p: Pid, j: nat, o: Bytes, c: Bytes, d: Bytes, v: Verdict)
    requires ValidRun(r) && Returns(r, p, j, o, c, d, v) && v != Failed
    ensures PhaseOf(r.states[j], p).call == Register(o, c, d)
    ensures v == Won || v == Lost
    ensures v == Won ==> r.acts[j] == Commit(p)
    ensures v == Lost ==> r.states[j + 1].kv == r.states[j].kv
  {
    assert StepAt(r, j);
  }

  // A registration that loses does so because its document held a tuple.
  lemma HeldDuring(r: Run, p: Pid, b: nat, j: nat, o: Bytes, c: Bytes, d: Bytes) returns (i: nat)
    requires ValidRun(r) && Returns(r, p, j, o, c, d, Lost) && Running(r, p, b, j)
    ensures b <= i <= j && ValidDocument(c, d) && Of(c, d, TuplesOf(r.states[i])) != {}
  {
    var s := r.states[j];
    assert StepAt(r, j);
    InvHolds(r, j);
    assert TxnInv(s, PhaseOf(s, p));
    if r.acts[j].Scan? {
      i := b;
    } else {
      var k := ConflictKey(s, p, o, c, d);
      i := ChangedWasPresent(r, b, j, k);
      assert HasUnder(r.states[i].kv, c, d);
    }
    InvHolds(r, i);
    HasUnderMeansRegistered(r.states[i].kv, c, d);
  }

  lemma WonMeansInserted(s: State, p: Pid, s': State, o: Bytes, c: Bytes, d: Bytes)
    requires Inv(s) && Next(s, Commit(p), s') && InTxn(PhaseOf(s, p))
    requires PhaseOf(s', p) == Returned(Register(o, c, d), Won)
    ensures ValidDocument(c, d) && Of(c, d, TuplesOf(s)) == {}
    ensures TuplesOf(s') == TuplesOf(s) + {OwnerTuple(o, c, d)}
  {
    var t := OwnerTuple(o, c, d);
    EmptyAtWin(s, p, o, c, d);
    OwnerKeyIsUnder(o, c, d);
    HasUnderMeansRegistered(s.kv, c, d);
    PutEntry(s.kv, t);
    AppliedPut(s.kv, StorageKey(t), TupleEntry(t));
  }

  lemma EmptyAtWin(s: State, p: Pid, o: Bytes, c: Bytes, d: Bytes)
    requires Inv(s) && PhaseOf(s, p).Ready? && PhaseOf(s, p).call == Register(o, c, d)
    requires !RangeChanged(s, c, d, PhaseOf(s, p).at)
    ensures ValidDocument(c, d) && !HasUnder(s.kv, c, d)
  {
    var ph := PhaseOf(s, p);
    assert TxnInv(s, ph);
    forall k | DocPrefix(c, d) <= k ensures k !in s.kv {
      assert !ChangedAfter(s, k, ph.at);
      assert At(ph.snap, k) == At(s.kv, k);
    }
  }

  lemma AppliedPut(kv: KeyValues, k: Bytes, e: Entry)
    ensures Applied(kv, map[k := Some(e)]) == kv[k := e]
  {
  }

  // A refused registration names a key of its own document that changed.
  lemma ConflictKey(s: State, p: Pid, o: Bytes, c: Bytes, d: Bytes) returns (k: Bytes)
    requires Inv(s) && PhaseOf(s, p).Ready? && PhaseOf(s, p).call == Register(o, c, d)
    requires Conflicts(s, PhaseOf(s, p).call, PhaseOf(s, p).snap, PhaseOf(s, p).at)
    ensures DocPrefix(c, d) <= k && ChangedAfter(s, k, PhaseOf(s, p).at)
  {
    var ph := PhaseOf(s, p);
    assert TxnInv(s, ph);
    OwnerKeyIsUnder(o, c, d);
    if RangeChanged(s, c, d, ph.at) {
      k :| k in s.changed && DocPrefix(c, d) <= k && s.changed[k] > ph.at;
    } else {
      k := StorageKey(OwnerTuple(o, c, d));
    }
  }

  // ----- Calls of a run -----

  ghost predicate Calls(s: State, ok: Call -> bool)
  {
    forall p :: InTxn(PhaseOf(s, p)) ==> ok(PhaseOf(s, p).call)
  }

  ghost predicate RunCalls(r: Run, ok: Call -> bool)
  {
    forall i :: 0 <= i < |r.acts| && r.acts[i].Begin? ==> ok(r.acts[i].call)
  }

  lemma {:induction false} CallsHold(r: Run, ok: Call -> bool, j: nat)
    requires ValidRun(r) && RunCalls(r, ok) && j < |r.states|
    ensures Calls(r.states[j], ok)
  {
    if j > 0 {
      CallsHold(r, ok, j - 1);
      var s, s' := r.states[j - 1], r.states[j];
      assert StepAt(r, j - 1);
      forall p | InTxn(PhaseOf(s', p)) ensures ok(PhaseOf(s', p).call) {
        if p != r.acts[j - 1].pid { assert PhaseOf(s', p) == PhaseOf(s, p); }
      }
    }
  }

  // ----- Exactly one racer wins -----

  predicate Touches(call: Call, c: Bytes, d: Bytes)
  {
    match call
    case Register(_, c', d') => c' == c && d' == d
    case Unregister(c', d') => c' == c && d' == d
    case Put(t) => t.collection == c && t.doc == d
    case Delete(t) => t.collection == c && t.doc == d
    case _ => false
  }

  function OnlyRegisters(c: Bytes, d: Bytes): Call -> bool
  {
    (call: Call) => Touches(call, c, d) ==> call.Register?
  }

  // A commit of a call on something else leaves this document's keys alone.
  lemma WritesStayOut(call: Call, snap: KeyValues, c: Bytes, d: Bytes, k: Bytes)
    requires WellFormedCall(call) && ValidDocument(c, d) && !Touches(call, c, d)
    requires k in Writes(call, snap)
    ensures !(DocPrefix(c, d) <= k)
  {
    match call
    case Register(o, c', d') => OwnerKeyIsUnder(o, c', d'); DocScanIsExact(OwnerTuple(o, c', d'), c, d);
    case Unregister(c', d') => if DocPrefix(c, d) <= k { DocScansAreDisjoint(k, c, d, c', d'); }
    case Put(t) => DocScanIsExact(t, c, d);
    case Delete(t) => DocScanIsExact(t, c, d);
    case Record(o) => FamiliesNeverMeet(c, d, OwnerTuple([], c, d), o.policy, o.resource, o.doc);
    case Clear(o) => FamiliesNeverMeet(c, d, OwnerTuple([], c, d), o.policy, o.resource, o.doc);
  }

  ghost predicate WinsAt(r: Run, j: nat, c: Bytes, d: Bytes)
    requires ValidRun(r)
  {
    j < |r.acts| && exists p, o :: Returns(r, p, j, o, c, d, Won)
  }

  // With registrations only, a document's tuples appear at a win and stay.
  lemma RegistrationStep(r: Run, j: nat, c: Bytes, d: Bytes)
    requires ValidRun(r) && ValidDocument(c, d) && RunCalls(r, OnlyRegisters(c, d)) && j < |r.acts|
    ensures HasUnder(r.states[j].kv, c, d) ==> HasUnder(r.states[j + 1].kv, c, d)
    ensures !HasUnder(r.states[j].kv, c, d) && HasUnder(r.states[j + 1].kv, c, d) ==> WinsAt(r, j, c, d)
    ensures WinsAt(r, j, c, d) ==> !HasUnder(r.states[j].kv, c, d) && HasUnder(r.states[j + 1].kv, c, d)
  {
    var s, s', a := r.states[j], r.states[j + 1], r.acts[j];
    assert StepAt(r, j);
    InvHolds(r, j);
    CallsHold(r, OnlyRegisters(c, d), j);
    var ph := PhaseOf(s, a.pid);
    assert TxnInv(s, ph);
    if s'.kv != s.kv {
      var w := Writes(ph.call, ph.snap);
      if Touches(ph.call, c, d) {
        assert ph.call == Register(ph.call.owner, c, d);
        assert Returns(r, a.pid, j, ph.call.owner, c, d, Won);
      } else {
        forall k | DocPrefix(c, d) <= k ensures k in s.kv <==> k in s'.kv {
          if k in w { WritesStayOut(ph.call, ph.snap, c, d, k); }
        }
      }
    }
    if WinsAt(r, j, c, d) {
      var p, o :| Returns(r, p, j, o, c, d, Won);
      assert a == Commit(p);
      WonMeansInserted(s, p, s', o, c, d);
      HasUnderMeansRegistered(s.kv, c, d);
      InvHolds(r, j + 1);
      HasUnderMeansRegistered(s'.kv, c, d);
      assert OwnerTuple(o, c, d) in Of(c, d, TuplesOf(s'));
    } else if HasUnder(s.kv, c, d) {
      var k :| k in s.kv && DocPrefix(c, d) <= k;
      assert k in s'.kv;
    }
  }

  lemma {:induction false} StaysHeld(r: Run, i: nat, j: nat, c: Bytes, d: Bytes)
    requires ValidRun(r) && ValidDocument(c, d) && RunCalls(r, OnlyRegisters(c, d))
    requires i <= j < |r.states| && HasUnder(r.states[i].kv, c, d)
    ensures HasUnder(r.states[j].kv, c, d)
  {
    if i < j {
      StaysHeld(r, i, j - 1, c, d);
      RegistrationStep(r, j - 1, c, d);
    }
  }

  lemma {:induction false} HeldMeansWon(r: Run, j: nat, c: Bytes, d: Bytes) returns (w: nat)
    requires ValidRun(r) && ValidDocument(c, d) && RunCalls(r, OnlyRegisters(c, d))
    requires !HasUnder(r.states[0].kv, c, d) && j < |r.states| && HasUnder(r.states[j].kv, c, d)
    ensures w < j && WinsAt(r, w, c, d)
  {
    RegistrationStep(r, j - 1, c, d);
    if HasUnder(r.states[j - 1].kv, c, d) {
      w := HeldMeansWon(r, j - 1, c, d);
    } else {
      w := j - 1;
    }
  }

  // Racing registrations of a fresh document, and any other traffic on other
  // documents: as soon as one of them has returned true or false, exactly one
  // has won.
  lemma ExactlyOneRacerWins(r: Run, p: Pid, j: nat, o: Bytes, c: Bytes, d: Bytes, v: Verdict) returns (w: nat)
    requires ValidRun(r) && RunCalls(r, OnlyRegisters(c, d)) && ValidDocument(c, d)
    requires Of(c, d, TuplesOf(r.states[0])) == {}
    requires Returns(r, p, j, o, c, d, v) && v != Failed
    ensures w <= j && WinsAt(r, w, c, d)
    ensures forall w' :: WinsAt(r, w', c, d) ==> w' == w
    ensures v == Won <==> w == j
  {
    InvHolds(r, 0);
    HasUnderMeansRegistered(r.states[0].kv, c, d);
    var b, i := RegistrationIsLinearizable(r, p, j, o, c, d, v);
    if v == Won {
      w := j;
    } else {
      InvHolds(r, i);
      HasUnderMeansRegistered(r.states[i].kv, c, d);
      w := HeldMeansWon(r, i, c, d);
    }
    forall w' | WinsAt(r, w', c, d) ensures w' == w {
      OneWin(r, w, w', c, d);
    }
  }

  lemma OneWin(r: Run, w: nat, w': nat, c: Bytes, d: Bytes)
    requires ValidRun(r) && ValidDocument(c, d) && RunCalls(r, OnlyRegisters(c, d))
    requires WinsAt(r, w, c, d) && WinsAt(r, w', c, d)
    ensures w == w'
  {
    RegistrationStep(r, w, c, d);
    RegistrationStep(r, w', c, d);
    if w < w' { StaysHeld(r, w + 1, w', c, d); }
    if w' < w { StaysHeld(r, w' + 1, w, c, d); }
  }

  // ----- At most one owner, under every interleaving -----

  // The document ACP never puts or deletes an owner tuple directly.
  function NoOwnerCalls(): Call -> bool
  {
    (call: Call) => (call.Put? || call.Delete?) ==> call.tuple.relation != OWNER_RELATION
  }

  function Owners(s: State, c: Bytes, d: Bytes): set<Bytes>
  {
    OwnersOf(TuplesOf(s), c, d)
  }

  lemma OwnersByKey(s: State, x: Bytes, c: Bytes, d: Bytes)
    requires WellKeyed(s.kv) && ValidDocument(c, d)
    ensures x in Owners(s, c, d) <==> StorageKey(OwnerTuple(x, c, d)) in s.kv
  {
    var t := OwnerTuple(x, c, d);
    HasByKey(TuplesIn(s.kv), t);
    TupleKeyHoldsNoRecord(s.kv, t);
    if t in TuplesOf(s) { assert t in Of(c, d, TuplesOf(s)); }
  }

  ghost predicate UnregistersAt(r: Run, i: nat, c: Bytes, d: Bytes)
    requires ValidRun(r)
  {
    && i < |r.acts| && r.acts[i].Commit?
    && PhaseOf(r.states[i + 1], r.acts[i].pid) == Returned(Unregister(c, d), Committed)
  }

  // A step adds an owner only by a win, and removes one only by an unregister
  // of its document.
  lemma OwnersChange(r: Run, j: nat, c: Bytes, d: Bytes, x: Bytes)
    requires ValidRun(r) && ValidDocument(c, d) && RunCalls(r, NoOwnerCalls()) && j < |r.acts|
    ensures x in Owners(r.states[j + 1], c, d) && x !in Owners(r.states[j], c, d) ==>
            Returns(r, r.acts[j].pid, j, x, c, d, Won)
    ensures x in Owners(r.states[j], c, d) && x !in Owners(r.states[j + 1], c, d) ==>
            UnregistersAt(r, j, c, d)
  {
    var s, s', a := r.states[j], r.states[j + 1], r.acts[j];
    assert StepAt(r, j);
    InvHolds(r, j);
    InvHolds(r, j + 1);
    CallsHold(r, NoOwnerCalls(), j);
    OwnersByKey(s, x, c, d);
    OwnersByKey(s', x, c, d);
    var ph := PhaseOf(s, a.pid);
    assert TxnInv(s, ph);
    var t := OwnerTuple(x, c, d);
    if (StorageKey(t) in s.kv) != (StorageKey(t) in s'.kv) {
      OwnerWrite(ph.call, ph.snap, x, c, d);
    }
  }

  lemma OwnerWrite(call: Call, snap: KeyValues, x: Bytes, c: Bytes, d: Bytes)
    requires WellFormedCall(call) && ValidDocument(c, d) && NoOwnerCalls()(call)
    requires StorageKey(OwnerTuple(x, c, d)) in Writes(call, snap)
    ensures call == Register(x, c, d) || call == Unregister(c, d)
  {
    var t := OwnerTuple(x, c, d);
    match call
    case Register(o, c', d') => StorageKeyIsInjective(t, OwnerTuple(o, c', d'));
    case Unregister(c', d') => DocScanIsExact(t, c', d');
    case Put(u) => StorageKeyIsInjective(t, u);
    case Delete(u) => StorageKeyIsInjective(t, u);
    case Record(o) => FamiliesNeverMeet(c, d, t, o.policy, o.resource, o.doc);
    case Clear(o) => FamiliesNeverMeet(c, d, t, o.policy, o.resource, o.doc);
  }

  // Under every interleaving a document has at most one owner.
  lemma {:induction false} AtMostOneOwner(r: Run, j: nat, c: Bytes, d: Bytes)
    requires ValidRun(r) && ValidDocument(c, d) && RunCalls(r, NoOwnerCalls()) && j < |r.states|
    requires OneOwner(TuplesOf(r.states[0]), c, d)
    ensures OneOwner(TuplesOf(r.states[j]), c, d)
  {
    if j > 0 {
      AtMostOneOwner(r, j - 1, c, d);
      var s, s' := r.states[j - 1], r.states[j];
      forall x, y | x in OwnersOf(TuplesOf(s'), c, d) && y in OwnersOf(TuplesOf(s'), c, d) ensures x == y {
        OwnersChange(r, j - 1, c, d, x);
        OwnersChange(r, j - 1, c, d, y);
        if x !in Owners(s, c, d) { WinIsAlone(r, j - 1, c, d, x); }
        if y !in Owners(s, c, d) { WinIsAlone(r, j - 1, c, d, y); }
      }
    }
  }

  lemma WinIsAlone(r: Run, j: nat, c: Bytes, d: Bytes, x: Bytes)
    requires ValidRun(r) && j < |r.acts| && Returns(r, r.acts[j].pid, j, x, c, d, Won)
    ensures ValidDocument(c, d) && Owners(r.states[j + 1], c, d) == {x} && Owners(r.states[j], c, d) == {}
  {
    var s, s', p := r.states[j], r.states[j + 1], r.acts[j].pid;
    InvHolds(r, j);
    assert StepAt(r, j);
    WonMeansInserted(s, p, s', x, c, d);
    OwnersAfterInsert(TuplesOf(s), x, c, d);
  }

  lemma OwnersAfterInsert(ts: set<RelationTuple>, x: Bytes, c: Bytes, d: Bytes)
    requires Of(c, d, ts) == {}
    ensures Subjects(ts, c, d, OWNER_RELATION) == {}
    ensures Subjects(ts + {OwnerTuple(x, c, d)}, c, d, OWNER_RELATION) == {x}
  {
    assert forall t :: t in Of(c, d, ts + {OwnerTuple(x, c, d)}) <==> t in Of(c, d, ts) || t == OwnerTuple(x, c, d);
    assert OwnerTuple(x, c, d).subject == x;
  }

  // Whoever won owns the document, alone, until an unregister of it commits.
  lemma {:induction false} WinnerOwns(r: Run, w: nat, p: Pid, o: Bytes, c: Bytes, d: Bytes, j: nat)
    requires ValidRun(r) && RunCalls(r, NoOwnerCalls())
    requires Returns(r, p, w, o, c, d, Won) && w < j < |r.states|
    requires forall i :: w < i < j ==> !UnregistersAt(r, i, c, d)
    ensures Owners(r.states[j], c, d) == {o}
  {
    assert StepAt(r, w);
    assert r.acts[w].pid == p;
    WinIsAlone(r, w, c, d, o);
    if j > w + 1 {
      WinnerOwns(r, w, p, o, c, d, j - 1);
      var s, s' := r.states[j - 1], r.states[j];
      OwnersChange(r, j - 1, c, d, o);
      forall x | x in Owners(s', c, d) ensures x == o {
        OwnersChange(r, j - 1, c, d, x);
        if x !in Owners(s, c, d) { WinIsAlone(r, j - 1, c, d, x); }
      }
    }
  }
}
