// Who owns a document, over every sequence of store calls: what one call does to
// the owners, and exactly when tuples are left without one
// (crates/acp/src/local.rs, crates/acp/src/store.rs).

module Ownership {
  import opened Text
  import opened RelationKeys
  import opened TupleStores

  function OwnersOf(ts: set<RelationTuple>, c: Bytes, d: Bytes): set<Bytes>
  {
    Subjects(ts, c, d, OWNER_RELATION)
  }

  lemma OwnerMeansTuple(ts: set<RelationTuple>, c: Bytes, d: Bytes, o: Bytes)
    ensures o in OwnersOf(ts, c, d) <==> OwnerTuple(o, c, d) in ts
  {
    if OwnerTuple(o, c, d) in ts { assert OwnerTuple(o, c, d) in Of(c, d, ts); }
  }

  ghost predicate OneOwner(ts: set<RelationTuple>, c: Bytes, d: Bytes)
  {
    forall x, y :: x in OwnersOf(ts, c, d) && y in OwnersOf(ts, c, d) ==> x == y
  }

  // The document ACP never puts or deletes an owner tuple directly.
  predicate NoOwnerEdit(op: Op)
  {
    (op.PutTuple? || op.DeleteTuple?) ==> op.tuple.relation != OWNER_RELATION
  }

  ghost predicate NoOwnerEdits(ops: seq<Op>)
  {
    forall i :: 0 <= i < |ops| ==> NoOwnerEdit(ops[i])
  }

  // ----- One call -----

  predicate Wins(ts: set<RelationTuple>, op: Op, c: Bytes, d: Bytes)
  {
    op.RegisterDocAtomic? && op.collection == c && op.doc == d && Reply(ts, op) == Yes
  }

  predicate Unregisters(op: Op, c: Bytes, d: Bytes)
  {
    op == DeleteDocTuples(c, d) && Accepts(op)
  }

  // A winning registration makes its caller the owner, an unregistration leaves
  // none, and nothing else changes the owners.
  lemma OwnersStep(ts: set<RelationTuple>, op: Op, c: Bytes, d: Bytes)
    requires NoOwnerEdit(op)
    ensures OwnersOf(Effect(ts, op), c, d) ==
            if Wins(ts, op, c, d) then {op.owner}
            else if Unregisters(op, c, d) then {}
            else OwnersOf(ts, c, d)
    ensures Wins(ts, op, c, d) ==> OwnersOf(ts, c, d) == {}
  {
    var ts' := Effect(ts, op);
    forall o ensures o in OwnersOf(ts', c, d) <==> OwnerTuple(o, c, d) in ts' {
      OwnerMeansTuple(ts', c, d, o);
    }
    forall o ensures o in OwnersOf(ts, c, d) <==> OwnerTuple(o, c, d) in ts {
      OwnerMeansTuple(ts, c, d, o);
    }
    forall o ensures OwnerTuple(o, c, d) in ts <==> OwnerTuple(o, c, d) in Of(c, d, ts) {
    }
    if Wins(ts, op, c, d) {
      assert forall o :: OwnerTuple(o, c, d) in ts' <==> o == op.owner;
    }
  }

  lemma OneOwnerStep(ts: set<RelationTuple>, op: Op, c: Bytes, d: Bytes)
    requires NoOwnerEdit(op) && OneOwner(ts, c, d)
    ensures OneOwner(Effect(ts, op), c, d)
  {
    OwnersStep(ts, op, c, d);
  }

  // Tuples, and no owner: nobody can manage the document or register it again.
  predicate Orphaned(ts: set<RelationTuple>, c: Bytes, d: Bytes)
  {
    Of(c, d, ts) != {} && OwnersOf(ts, c, d) == {}
  }

  // A tuple of the document is put while it has no owner.
  predicate Strands(ts: set<RelationTuple>, op: Op, c: Bytes, d: Bytes)
  {
    op.PutTuple? && op.tuple.collection == c && op.tuple.doc == d && OwnersOf(ts, c, d) == {}
  }

  lemma OrphanStep(ts: set<RelationTuple>, op: Op, c: Bytes, d: Bytes)
    requires NoOwnerEdit(op)
    ensures Strands(ts, op, c, d) ==> Orphaned(Effect(ts, op), c, d)
    ensures !Orphaned(ts, c, d) && Orphaned(Effect(ts, op), c, d) ==> Strands(ts, op, c, d)
  {
    OwnersStep(ts, op, c, d);
    if Strands(ts, op, c, d) {
      assert op.tuple in Of(c, d, Effect(ts, op));
    } else if Of(c, d, ts) == {} && OwnersOf(Effect(ts, op), c, d) == {} {
      NothingAppears(ts, op, c, d);
    }
  }

  lemma NothingAppears(ts: set<RelationTuple>, op: Op, c: Bytes, d: Bytes)
    requires Of(c, d, ts) == {} && !Wins(ts, op, c, d)
    requires !(op.PutTuple? && op.tuple.collection == c && op.tuple.doc == d)
    ensures Of(c, d, Effect(ts, op)) == {}
  {
    assert forall t :: t in ts && t.collection == c && t.doc == d ==> t in Of(c, d, ts);
  }

  // ----- Every sequence of calls -----

  function StateAt(ts: set<RelationTuple>, ops: seq<Op>, n: nat): set<RelationTuple>
    requires n <= |ops|
  {
    States(ts, ops[..n])
  }

  lemma StateStep(ts: set<RelationTuple>, ops: seq<Op>, n: nat)
    requires n < |ops|
    ensures StateAt(ts, ops, n + 1) == Effect(StateAt(ts, ops, n), ops[n])
  {
    assert ops[..n + 1][..n] == ops[..n];
  }

  ghost predicate OrphanedAt(ts: set<RelationTuple>, ops: seq<Op>, n: nat, c: Bytes, d: Bytes)
  {
    n <= |ops| && Orphaned(StateAt(ts, ops, n), c, d)
  }

  ghost predicate StrandsAt(ts: set<RelationTuple>, ops: seq<Op>, n: nat, c: Bytes, d: Bytes)
  {
    n < |ops| && Strands(StateAt(ts, ops, n), ops[n], c, d)
  }

  // The call that first leaves the document without an owner.
  lemma {:induction false} FirstStrand(ts: set<RelationTuple>, ops: seq<Op>, n: nat, c: Bytes, d: Bytes)
    returns (m: nat)
    requires NoOwnerEdits(ops) && !Orphaned(ts, c, d) && OrphanedAt(ts, ops, n, c, d)
    ensures m < n && StrandsAt(ts, ops, m, c, d) && forall i: nat :: i <= m ==> !OrphanedAt(ts, ops, i, c, d)
    decreases n
  {
    assert n > 0 by { assert ops[..0] == []; }
    if k: nat :| k < n && OrphanedAt(ts, ops, k, c, d) {
      m := FirstStrand(ts, ops, k, c, d);
    } else {
      m := n - 1;
      assert !OrphanedAt(ts, ops, m, c, d);
      StateStep(ts, ops, m);
      OrphanStep(StateAt(ts, ops, m), ops[m], c, d);
    }
  }

  // A sequence of calls ever leaves a document with tuples and no owner if and
  // only if some put of one of its tuples lands while it has none.
  lemma OrphansIff(ts: set<RelationTuple>, ops: seq<Op>, c: Bytes, d: Bytes)
    requires NoOwnerEdits(ops) && !Orphaned(ts, c, d)
    ensures (exists n: nat :: OrphanedAt(ts, ops, n, c, d)) <==> (exists n: nat :: StrandsAt(ts, ops, n, c, d))
  {
    if n: nat :| OrphanedAt(ts, ops, n, c, d) {
      var m := FirstStrand(ts, ops, n, c, d);
    }
    if n: nat :| StrandsAt(ts, ops, n, c, d) {
      StateStep(ts, ops, n);
      OrphanStep(StateAt(ts, ops, n), ops[n], c, d);
      assert OrphanedAt(ts, ops, n + 1, c, d);
    }
  }

  // ----- When a document has no owner -----

  // Unregistered at `u`, and nobody won a registration since.
  ghost predicate UnownedSince(ts: set<RelationTuple>, ops: seq<Op>, u: nat, j: nat, c: Bytes, d: Bytes)
  {
    && u < j <= |ops| && Unregisters(ops[u], c, d)
    && forall v :: u < v < j ==> !Wins(StateAt(ts, ops, v), ops[v], c, d)
  }

  ghost predicate Unowned(ts: set<RelationTuple>, ops: seq<Op>, i: nat, j: nat, c: Bytes, d: Bytes)
  {
    exists u: nat :: i <= u && UnownedSince(ts, ops, u, j, c, d)
  }

  lemma {:induction false} UnownedStep(ts: set<RelationTuple>, ops: seq<Op>, i: nat, j: nat, c: Bytes, d: Bytes)
    requires i <= j < |ops|
    ensures Unowned(ts, ops, i, j + 1, c, d) <==>
            Unregisters(ops[j], c, d) || (!Wins(StateAt(ts, ops, j), ops[j], c, d) && Unowned(ts, ops, i, j, c, d))
  {
    if Unregisters(ops[j], c, d) {
      assert UnownedSince(ts, ops, j, j + 1, c, d);
    } else {
      var next := j + 1;
      if u: nat :| i <= u && UnownedSince(ts, ops, u, next, c, d) {
        assert UnownedSince(ts, ops, u, j, c, d);
      }
      if !Wins(StateAt(ts, ops, j), ops[j], c, d) && Unowned(ts, ops, i, j, c, d) {
        var u: nat :| i <= u && UnownedSince(ts, ops, u, j, c, d);
        assert UnownedSince(ts, ops, u, j + 1, c, d);
      }
    }
  }

  // From a state with an owner: later there is none if and only if an
  // unregistration came in between with no winning registration after it.
  lemma {:induction false} OwnerlessIff(ts: set<RelationTuple>, ops: seq<Op>, i: nat, j: nat, c: Bytes, d: Bytes)
    requires NoOwnerEdits(ops) && i <= j <= |ops| && OwnersOf(StateAt(ts, ops, i), c, d) != {}
    ensures OwnersOf(StateAt(ts, ops, j), c, d) == {} <==> Unowned(ts, ops, i, j, c, d)
    decreases j
  {
    if i < j {
      OwnerlessIff(ts, ops, i, j - 1, c, d);
      StateStep(ts, ops, j - 1);
      OwnersStep(StateAt(ts, ops, j - 1), ops[j - 1], c, d);
      UnownedStep(ts, ops, i, j - 1, c, d);
    }
  }

  lemma {:induction false} UnownedIsOwnerless(ts: set<RelationTuple>, ops: seq<Op>, u: nat, j: nat, c: Bytes, d: Bytes)
    requires NoOwnerEdits(ops) && UnownedSince(ts, ops, u, j, c, d)
    ensures OwnersOf(StateAt(ts, ops, j), c, d) == {}
    decreases j
  {
    StateStep(ts, ops, j - 1);
    OwnersStep(StateAt(ts, ops, j - 1), ops[j - 1], c, d);
    if u < j - 1 {
      UnownedBefore(ts, ops, u, j - 1, c, d);
      UnownedIsOwnerless(ts, ops, u, j - 1, c, d);
    }
  }

  lemma {:induction false} UnownedBefore(ts: set<RelationTuple>, ops: seq<Op>, u: nat, j: nat, c: Bytes, d: Bytes)
    requires UnownedSince(ts, ops, u, j + 1, c, d) && u < j
    ensures UnownedSince(ts, ops, u, j, c, d) && !Wins(StateAt(ts, ops, j), ops[j], c, d)
  {
  }

  // ----- Sharing, check and put interleaved with anything -----

  // The put at `j` belongs to a sharing whose requestor was found at `i` to hold
  // a tuple of the same document.
  predicate CheckedAt(ts: set<RelationTuple>, ops: seq<Op>, i: nat, j: nat)
  {
    && i < j < |ops| && ops[j].PutTuple? && ops[i].HasTuple? && Reply(StateAt(ts, ops, i), ops[i]) == Yes
    && ops[i].tuple.collection == ops[j].tuple.collection && ops[i].tuple.doc == ops[j].tuple.doc
  }

  // Every put was checked, `checks[j]` for the one at `j`.
  ghost predicate PutsAreChecked(ts: set<RelationTuple>, ops: seq<Op>, checks: seq<nat>)
  {
    |checks| == |ops| && forall j :: 0 <= j < |ops| && ops[j].PutTuple? ==> CheckedAt(ts, ops, checks[j], j)
  }

  // Between a sharing's check and its put at `j` the document was unregistered,
  // at `u`, and not won again.
  ghost predicate Overtaken(ts: set<RelationTuple>, ops: seq<Op>, checks: seq<nat>, j: nat, u: nat, c: Bytes, d: Bytes)
    requires |checks| == |ops|
  {
    && j < |ops| && ops[j].PutTuple? && ops[j].tuple.collection == c && ops[j].tuple.doc == d
    && checks[j] < u && UnownedSince(ts, ops, u, j, c, d)
  }

  // Interleaved sharing orphans a document if and only if an unregistration
  // overtakes a sharing between its check and its put, with no winning
  // registration in between.
  lemma SharingOrphansIff(ts: set<RelationTuple>, ops: seq<Op>, checks: seq<nat>, c: Bytes, d: Bytes)
    requires NoOwnerEdits(ops) && PutsAreChecked(ts, ops, checks) && !Orphaned(ts, c, d)
    ensures (exists n: nat :: OrphanedAt(ts, ops, n, c, d)) <==> (exists j: nat, u: nat :: Overtaken(ts, ops, checks, j, u, c, d))
  {
    if n: nat :| OrphanedAt(ts, ops, n, c, d) {
      var j := FirstStrand(ts, ops, n, c, d);
      var u := StrandIsOvertaken(ts, ops, checks, j, c, d);
    }
    if j: nat, u: nat :| Overtaken(ts, ops, checks, j, u, c, d) {
      UnownedIsOwnerless(ts, ops, u, j, c, d);
      assert StrandsAt(ts, ops, j, c, d);
      OrphansIff(ts, ops, c, d);
    }
  }

  lemma StrandIsOvertaken(ts: set<RelationTuple>, ops: seq<Op>, checks: seq<nat>, j: nat, c: Bytes, d: Bytes)
    returns (u: nat)
    requires NoOwnerEdits(ops) && PutsAreChecked(ts, ops, checks)
    requires StrandsAt(ts, ops, j, c, d) && forall i: nat :: i <= j ==> !OrphanedAt(ts, ops, i, c, d)
    ensures Overtaken(ts, ops, checks, j, u, c, d)
  {
    var i := checks[j];
    assert CheckedAt(ts, ops, i, j);
    assert ops[i].tuple in Of(c, d, StateAt(ts, ops, i));
    assert !OrphanedAt(ts, ops, i, c, d);
    OwnerlessIff(ts, ops, i, j, c, d);
    u :| i <= u && UnownedSince(ts, ops, u, j, c, d);
    assert u != i;
  }

  // It happens. A sharing that checked its requestor before an unregistration and
  // puts after it leaves tuples without an owner, and the document can no longer
  // be registered.
  lemma InterleavedSharingOrphans(a: Bytes, b: Bytes, c: Bytes, d: Bytes, who: Bytes)
    requires ValidDocument(c, d)
    ensures var shared := RelationTuple(b, "reader", c, d);
            var calls := [RegisterDocAtomic(a, c, d), HasTuple(OwnerTuple(a, c, d)), HasTuple(shared),
                          DeleteDocTuples(c, d), PutTuple(shared), RegisterDocAtomic(who, c, d)];
            && Replies({}, calls) == [Yes, Yes, No, Done, Done, No]
            && Of(c, d, States({}, calls)) != {} && OwnersOf(States({}, calls), c, d) == {}
  {
    var shared := RelationTuple(b, "reader", c, d);
    var owner := OwnerTuple(a, c, d);
    assert OWNER_RELATION[0] != "reader"[0];
    var calls := [RegisterDocAtomic(a, c, d), HasTuple(owner), HasTuple(shared),
                  DeleteDocTuples(c, d), PutTuple(shared), RegisterDocAtomic(who, c, d)];
    var start: set<RelationTuple> := {};
    assert Of(c, d, start) == {};
    assert calls[..1] == [RegisterDocAtomic(a, c, d)];
    FirstCall(start, calls[0]);
    NextCall(start, calls, 1);
    NextCall(start, calls, 2);
    NextCall(start, calls, 3);
    assert Of(c, d, {owner}) == {owner};
    NextCall(start, calls, 4);
    NextCall(start, calls, 5);
    assert calls[..6] == calls;
    assert States(start, calls[..4]) == {};
    assert States(start, calls[..5]) == {shared};
    assert shared in Of(c, d, {shared});
    assert forall t :: t in {shared} ==> t.relation == "reader";
  }

  lemma FirstCall(ts: set<RelationTuple>, op: Op)
    ensures States(ts, [op]) == Effect(ts, op) && Replies(ts, [op]) == [Reply(ts, op)]
  {
    assert [op][..0] == [];
  }

  lemma NextCall(ts: set<RelationTuple>, ops: seq<Op>, n: nat)
    requires n < |ops|
    ensures States(ts, ops[..n + 1]) == Effect(States(ts, ops[..n]), ops[n])
    ensures Replies(ts, ops[..n + 1]) == Replies(ts, ops[..n]) + [Reply(States(ts, ops[..n]), ops[n])]
  {
    assert ops[..n + 1][..n] == ops[..n];
  }
}
