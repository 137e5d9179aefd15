// Exactly when a call on the persistent store is refused
// (crates/acp/src/persistent.rs): in terms of the tuples that were there at the
// instants of the call.

module Conflicting {
  import opened Options
  import opened Text
  import opened RelationKeys
  import opened TupleStores
  import opened RegisterOnce
  import opened Unregistering

  // `k` held something else right after step `i`.
  ghost predicate ChangesAt(r: Run, k: Bytes, i: nat)
    requires ValidRun(r)
  {
    i < |r.acts| && At(r.states[i].kv, k) != At(r.states[i + 1].kv, k)
  }

  ghost predicate ChangesBetween(r: Run, k: Bytes, b: nat, j: nat)
    requires ValidRun(r)
  {
    exists i: nat :: b <= i < j && ChangesAt(r, k, i)
  }

  // A step stamps exactly the keys whose contents it changes, with a number
  // beyond all before it.
  lemma StampStep(s: State, a: Action, s': State, k: Bytes, at: nat)
    requires Inv(s) && Next(s, a, s') && at <= s.commits
    ensures ChangedAfter(s', k, at) <==> ChangedAfter(s, k, at) || At(s.kv, k) != At(s'.kv, k)
  {
  }

  // A key bears a later stamp than a call's snapshot if and only if its contents
  // changed since.
  lemma {:induction false} StampIff(r: Run, b: nat, j: nat, k: Bytes)
    requires ValidRun(r) && b <= j < |r.states|
    ensures ChangedAfter(r.states[j], k, r.states[b].commits) <==> ChangesBetween(r, k, b, j)
    decreases j
  {
    if b == j {
      InvHolds(r, b);
    } else {
      StampIff(r, b, j - 1, k);
      InvHolds(r, j - 1);
      StampsGrow(r, b, j - 1, k, 0);
      assert StepAt(r, j - 1);
      StampStep(r.states[j - 1], r.acts[j - 1], r.states[j], k, r.states[b].commits);
      assert ChangesAt(r, k, j - 1) <==> At(r.states[j - 1].kv, k) != At(r.states[j].kv, k);
    }
  }

  // A tuple is in the store at state `i`.
  ghost predicate There(r: Run, i: nat, t: RelationTuple)
    requires ValidRun(r) && i < |r.states|
  {
    t in TuplesOf(r.states[i])
  }

  lemma ThereByKey(r: Run, i: nat, t: RelationTuple)
    requires ValidRun(r) && i < |r.states| && ValidTuple(t)
    ensures There(r, i, t) <==> StorageKey(t) in r.states[i].kv
    ensures There(r, i, t) ==> r.states[i].kv[StorageKey(t)] == TupleEntry(t)
  {
    InvHolds(r, i);
    TupleByKey(r.states[i], t);
    TupleKeyHoldsNoRecord(r.states[i].kv, t);
    if StorageKey(t) in r.states[i].kv {
      StorageKeyIsInjective(t, r.states[i].kv[StorageKey(t)].tuple);
    }
  }

  // From `b` to `j` the tuple was there at one instant and absent at another.
  ghost predicate Flickers(r: Run, b: nat, j: nat, t: RelationTuple)
    requires ValidRun(r) && j < |r.states|
  {
    exists i: nat :: b <= i <= j && There(r, i, t) != There(r, j, t)
  }

  lemma {:induction false} FlickersIff(r: Run, b: nat, j: nat, t: RelationTuple)
    requires ValidRun(r) && b <= j < |r.states| && ValidTuple(t)
    ensures Flickers(r, b, j, t) <==> ChangesBetween(r, StorageKey(t), b, j)
    decreases j
  {
    var k := StorageKey(t);
    if b < j {
      FlickersIff(r, b, j - 1, t);
      ThereByKey(r, j - 1, t);
      ThereByKey(r, j, t);
      assert ChangesAt(r, k, j - 1) <==> There(r, j - 1, t) != There(r, j, t);
      if Flickers(r, b, j - 1, t) || There(r, j - 1, t) != There(r, j, t) {
        FlickersOn(r, b, j, t);
      }
      if i: nat :| b <= i <= j && There(r, i, t) != There(r, j, t) {
        if There(r, j - 1, t) == There(r, j, t) { assert Flickers(r, b, j - 1, t); }
      }
    }
  }

  lemma FlickersOn(r: Run, b: nat, j: nat, t: RelationTuple)
    requires ValidRun(r) && b < j < |r.states|
    requires Flickers(r, b, j - 1, t) || There(r, j - 1, t) != There(r, j, t)
    ensures Flickers(r, b, j, t)
  {
    if There(r, j - 1, t) == There(r, j, t) {
      var i: nat :| b <= i <= j - 1 && There(r, i, t) != There(r, j - 1, t);
      assert There(r, i, t) != There(r, j, t);
    }
  }

  // `p`'s call, begun at `b`, commits at step `j`.
  ghost predicate Commits(r: Run, p: Pid, b: nat, j: nat, call: Call)
    requires ValidRun(r)
  {
    Running(r, p, b, j) && r.acts[b].call == call && j < |r.acts| && r.acts[j] == Commit(p)
  }

  ghost predicate Refused(r: Run, p: Pid, j: nat, call: Call)
    requires ValidRun(r) && j < |r.acts|
  {
    PhaseOf(r.states[j + 1], p) == Returned(call, Conflicted)
  }

  lemma RefusedIff(r: Run, p: Pid, b: nat, j: nat, call: Call)
    requires ValidRun(r) && Commits(r, p, b, j, call) && !call.Register?
    ensures WellFormedCall(call)
    ensures Refused(r, p, j, call) <==> Conflicts(r.states[j], call, r.states[b].kv, r.states[b].commits)
    ensures !Refused(r, p, j, call) ==> PhaseOf(r.states[j + 1], p) == Returned(call, Committed)
  {
    InvHolds(r, j);
    assert TxnInv(r.states[j], PhaseOf(r.states[j], p));
    assert StepAt(r, j);
  }

  // A put is refused if and only if its tuple was there at some instant of the
  // call and is gone at the commit.
  lemma PutRefusedIff(r: Run, p: Pid, b: nat, j: nat, t: RelationTuple)
    requires ValidRun(r) && Commits(r, p, b, j, Put(t))
    ensures Refused(r, p, j, Put(t)) <==> !There(r, j, t) && exists i: nat :: b <= i <= j && There(r, i, t)
    ensures !Refused(r, p, j, Put(t)) ==> PhaseOf(r.states[j + 1], p) == Returned(Put(t), Committed) && There(r, j + 1, t)
  {
    RefusedIff(r, p, b, j, Put(t));
    ThereByKey(r, j, t);
    StampIff(r, b, j, StorageKey(t));
    FlickersIff(r, b, j, t);
    assert StepAt(r, j);
    ThereByKey(r, j + 1, t);
  }

  // A delete is refused if and only if its tuple was absent at some instant of
  // the call and is there at the commit.
  lemma DeleteRefusedIff(r: Run, p: Pid, b: nat, j: nat, t: RelationTuple)
    requires ValidRun(r) && Commits(r, p, b, j, Delete(t))
    ensures Refused(r, p, j, Delete(t)) <==> There(r, j, t) && exists i: nat :: b <= i <= j && !There(r, i, t)
    ensures !Refused(r, p, j, Delete(t)) ==>
              PhaseOf(r.states[j + 1], p) == Returned(Delete(t), Committed) && !There(r, j + 1, t)
  {
    RefusedIff(r, p, b, j, Delete(t));
    ThereByKey(r, j, t);
    StampIff(r, b, j, StorageKey(t));
    FlickersIff(r, b, j, t);
    assert StepAt(r, j);
    ThereByKey(r, j + 1, t);
  }

  // `t` is of the document, was there when the call began, is there at its commit
  // and was absent in between.
  ghost predicate CameBack(r: Run, b: nat, j: nat, c: Bytes, d: Bytes, t: RelationTuple)
    requires ValidRun(r) && b <= j < |r.states|
  {
    && t.collection == c && t.doc == d && There(r, b, t) && There(r, j, t)
    && exists i: nat :: b <= i <= j && !There(r, i, t)
  }

  // An unregistration is refused if and only if a tuple it saw went and came back
  // while it ran.
  lemma UnregisterRefusedIff(r: Run, p: Pid, b: nat, j: nat, c: Bytes, d: Bytes)
    requires ValidRun(r) && Commits(r, p, b, j, Unregister(c, d))
    ensures Refused(r, p, j, Unregister(c, d)) <==> exists t :: CameBack(r, b, j, c, d, t)
  {
    var call, snap, s := Unregister(c, d), r.states[b].kv, r.states[j];
    RefusedIff(r, p, b, j, call);
    if Refused(r, p, j, call) {
      var k :| k in Writes(call, snap) && ChangedAfter(s, k, r.states[b].commits) && At(s.kv, k) != Writes(call, snap)[k];
      InvHolds(r, b);
      ScansMeetOnlyTuples(snap, DocPrefix(c, d));
      var t := snap[k].tuple;
      DocScanIsExact(t, c, d);
      CameBackIff(r, b, j, c, d, t);
    }
    if t :| CameBack(r, b, j, c, d, t) {
      InvHolds(r, b);
      TupleIsValid(snap, t);
      DocScanIsExact(t, c, d);
      CameBackIff(r, b, j, c, d, t);
      assert StorageKey(t) in Writes(call, snap);
    }
  }

  lemma TupleIsValid(kv: KeyValues, t: RelationTuple)
    requires WellKeyed(kv) && t in Contents(TuplesIn(kv))
    ensures ValidTuple(t)
  {
  }

  lemma CameBackIff(r: Run, b: nat, j: nat, c: Bytes, d: Bytes, t: RelationTuple)
    requires ValidRun(r) && b <= j < |r.states| && ValidTuple(t) && t.collection == c && t.doc == d
    ensures CameBack(r, b, j, c, d, t) <==>
            && StorageKey(t) in r.states[b].kv && StorageKey(t) in r.states[j].kv
            && ChangedAfter(r.states[j], StorageKey(t), r.states[b].commits)
  {
    ThereByKey(r, b, t);
    ThereByKey(r, j, t);
    StampIff(r, b, j, StorageKey(t));
    FlickersIff(r, b, j, t);
  }

  // The document had no tuple at any instant from `b` to `j`.
  ghost predicate FreeThroughout(r: Run, b: nat, j: nat, c: Bytes, d: Bytes)
    requires ValidRun(r) && j < |r.states|
  {
    forall i: nat :: b <= i <= j ==> Of(c, d, TuplesOf(r.states[i])) == {}
  }

  // A registration that returns true or false returns true if and only if its
  // document had no tuple at any instant of the call.
  lemma WinsIffFreeThroughout(r: Run, p: Pid, b: nat, j: nat, o: Bytes, c: Bytes, d: Bytes, v: Verdict)
    requires ValidRun(r) && Returns(r, p, j, o, c, d, v) && v != Failed && Running(r, p, b, j)
    ensures v == Won <==> FreeThroughout(r, b, j, c, d)
  {
    ReturnStep(r, p, j, o, c, d, v);
    if v == Lost {
      var i := HeldDuring(r, p, b, j, o, c, d);
    } else {
      forall i: nat | b <= i <= j ensures Of(c, d, TuplesOf(r.states[i])) == {} {
        WonMeansFree(r, p, b, i, j, o, c, d);
      }
    }
  }

  lemma WonMeansFree(r: Run, p: Pid, b: nat, i: nat, j: nat, o: Bytes, c: Bytes, d: Bytes)
    requires ValidRun(r) && Returns(r, p, j, o, c, d, Won) && Running(r, p, b, j) && b <= i <= j
    ensures Of(c, d, TuplesOf(r.states[i])) == {}
  {
    InvHolds(r, j);
    assert StepAt(r, j);
    forall k | DocPrefix(c, d) <= k ensures k !in r.states[i].kv {
      WonUnchanged(r.states[j], r.acts[j], r.states[j + 1], p, o, c, d, k);
      StampsGrow(r, i, j, k, r.states[b].commits);
      UnchangedSince(r, p, b, i, j, k);
    }
    InvHolds(r, i);
    HasUnderMeansRegistered(r.states[i].kv, c, d);
  }

  // A winning registration saw no key of its document, and none changed since.
  lemma WonUnchanged(s: State, a: Action, s': State, p: Pid, o: Bytes, c: Bytes, d: Bytes, k: Bytes)
    requires Inv(s) && Next(s, a, s') && InTxn(PhaseOf(s, p)) && PhaseOf(s', p) == Returned(Register(o, c, d), Won)
    requires DocPrefix(c, d) <= k
    ensures ValidDocument(c, d) && k !in PhaseOf(s, p).snap && !ChangedAfter(s, k, PhaseOf(s, p).at)
  {
    assert TxnInv(s, PhaseOf(s, p));
  }

  lemma UnchangedSince(r: Run, p: Pid, b: nat, i: nat, j: nat, k: Bytes)
    requires ValidRun(r) && Running(r, p, b, j) && b <= i <= j && !ChangedAfter(r.states[i], k, r.states[b].commits)
    ensures At(r.states[i].kv, k) == At(r.states[b].kv, k)
  {
    InvHolds(r, i);
    if i > b { assert TxnInv(r.states[i], PhaseOf(r.states[i], p)); }
  }
}
