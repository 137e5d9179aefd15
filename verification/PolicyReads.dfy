// When the policy cache stays coherent, told at the moment a fetch reads: what
// it then brings into the shared table, steps later, is right exactly if it was
// right when read, or is about to be invalidated
// (crates/acp/src/policy_cache.rs, crates/acp/src/zanzibar/acp/mod.rs).

module PolicyReads {
  import opened Options
  import opened PolicyCache

  // A process on its way to install `v` under `id`: a fetch that has read it, or
  // an edit that adds it and has loaded the table.
  predicate Carries(ph: Phase, id: Id, v: Policy)
  {
    || ((ph.Fetched? || ph.Matched?) && ph.id == id && ph.policy == Some(v))
    || (ph.Loaded? && ph.edit == Add(id, v))
  }

  // The table it will replace.
  function TableHeld(ph: Phase): Table
    requires ph.Fetched? || ph.Matched? || ph.Loaded?
  {
    if ph.Loaded? then ph.from else ph.before
  }

  predicate Takes(m: Move)
  {
    m.ReadCommitted? || m.ReadView? || m.Load?
  }

  // `p` takes up `v` for `id` at step `k`, its read, and installs it at step `i`.
  ghost predicate Brings(r: Run, p: Pid, k: nat, i: nat, id: Id, v: Policy)
    requires ValidRun(r)
  {
    && k < i < |r.acts| && r.acts[k].pid == p && Takes(r.acts[k].move)
    && (forall n :: k < n <= i ==> Carries(PhaseOf(r.states[n], p), id, v))
    && r.acts[i] == Action(p, Swap) && Installs(r.states[i].current, PhaseOf(r.states[i], p), Swap)
  }

  // Step `n` commits a change of the policy.
  predicate ChangesAt(r: Run, n: nat, id: Id)
  {
    && n < |r.acts| && n < |r.states| && r.acts[n].move.CommitChange?
    && var ph := PhaseOf(r.states[n], r.acts[n].pid); ph.Changing? && ph.id == id
  }

  ghost predicate ChangedBetween(r: Run, k: nat, i: nat, id: Id)
  {
    exists n: nat :: k < n < i && ChangesAt(r, n, id)
  }

  // What was taken up at `k` was committed then, or its invalidation was under
  // way, or a change of it commits before it is installed at `i`.
  ghost predicate TakenWell(r: Run, k: nat, i: nat, id: Id, v: Policy)
    requires k < |r.states|
  {
    Agrees(r.states[k].committed, id, v) || Invalidating(r.states[k], id) || ChangedBetween(r, k, i, id)
  }

  // ----- From the installation back to the read -----

  lemma {:induction false} FindRead(r: Run, p: Pid, i: nat, id: Id, v: Policy) returns (k: nat)
    requires ValidRun(r) && i < |r.states| && Carries(PhaseOf(r.states[i], p), id, v)
    ensures k < i && r.acts[k].pid == p && Takes(r.acts[k].move)
    ensures forall n :: k < n <= i ==> Carries(PhaseOf(r.states[n], p), id, v)
    decreases i
  {
    assert i > 0;
    assert StepAt(r, i - 1);
    if Carries(PhaseOf(r.states[i - 1], p), id, v) {
      k := FindRead(r, p, i - 1, id, v);
    } else {
      k := i - 1;
    }
  }

  lemma {:induction false} HeldThroughout(r: Run, p: Pid, k: nat, n: nat, id: Id, v: Policy)
    requires ValidRun(r) && k < n < |r.states| && forall m :: k < m <= n ==> Carries(PhaseOf(r.states[m], p), id, v)
    ensures Carries(PhaseOf(r.states[n], p), id, v) && Carries(PhaseOf(r.states[k + 1], p), id, v)
    ensures TableHeld(PhaseOf(r.states[n], p)) == TableHeld(PhaseOf(r.states[k + 1], p))
    decreases n
  {
    if k + 1 < n {
      HeldThroughout(r, p, k, n - 1, id, v);
      assert StepAt(r, n - 1);
      assert Carries(PhaseOf(r.states[n - 1], p), id, v);
    }
  }

  // The table held is no newer than the one current at the read.
  lemma TakenIsOld(r: Run, p: Pid, k: nat, id: Id, v: Policy)
    requires ValidRun(r) && k < |r.acts| && r.acts[k].pid == p && Takes(r.acts[k].move)
    requires Carries(PhaseOf(r.states[k + 1], p), id, v)
    ensures TableHeld(PhaseOf(r.states[k + 1], p)).ident <= r.states[k].current.ident
  {
    TablesHold(r, 0, k);
    assert StepAt(r, k);
    var ph := PhaseOf(r.states[k], p);
    if ph.Snapped? { HeldIsOld(r.states[k], p, ph.before); }
  }

  // So nothing is installed from the read to the installation.
  lemma QuietTable(r: Run, p: Pid, k: nat, i: nat, id: Id, v: Policy)
    requires ValidRun(r) && Brings(r, p, k, i, id, v)
    ensures r.states[k].current.ident == r.states[i].current.ident
  {
    HeldThroughout(r, p, k, i, id, v);
    TakenIsOld(r, p, k, id, v);
    TablesHold(r, k, i);
  }

  // ----- Invalidations under way, forward and backward -----

  lemma {:induction false} InvalidationStays(r: Run, k: nat, i: nat, id: Id)
    requires ValidRun(r) && k <= i < |r.states| && r.states[k].current.ident == r.states[i].current.ident
    requires Invalidating(r.states[k], id)
    ensures Invalidating(r.states[i], id)
    decreases i
  {
    if k < i {
      TablesHold(r, k, i - 1);
      TablesHold(r, i - 1, i);
      InvalidationStays(r, k, i - 1, id);
      assert StepAt(r, i - 1);
      StillInvalidating(r.states[i - 1], r.acts[i - 1], r.states[i], id);
    }
  }

  lemma ChangeInvalidates(r: Run, n: nat, id: Id)
    requires ValidRun(r) && ChangesAt(r, n, id)
    ensures Invalidating(r.states[n + 1], id)
  {
    assert StepAt(r, n);
    assert OwesFor(PhaseOf(r.states[n + 1], r.acts[n].pid), id);
  }

  // Without a change, a policy stays what it was and an invalidation under way
  // was under way before.
  lemma WithoutChange(r: Run, n: nat, id: Id)
    requires ValidRun(r) && n < |r.acts| && !ChangesAt(r, n, id)
    ensures Get(r.states[n + 1].committed, id) == Get(r.states[n].committed, id)
    ensures Invalidating(r.states[n + 1], id) ==> Invalidating(r.states[n], id)
  {
    var s, s', a := r.states[n], r.states[n + 1], r.acts[n];
    assert StepAt(r, n);
    if Invalidating(s', id) {
      var p :| OwesFor(PhaseOf(s', p), id);
      if p != a.pid { assert PhaseOf(s', p) == PhaseOf(s, p); }
      assert OwesFor(PhaseOf(s, p), id);
    }
  }

  lemma {:induction false} NoChangeSince(r: Run, k: nat, i: nat, id: Id)
    requires ValidRun(r) && k <= i < |r.states| && forall n :: k <= n < i ==> !ChangesAt(r, n, id)
    ensures Get(r.states[i].committed, id) == Get(r.states[k].committed, id)
    ensures Invalidating(r.states[i], id) ==> Invalidating(r.states[k], id)
    decreases i
  {
    if k < i {
      NoChangeSince(r, k, i - 1, id);
      WithoutChange(r, i - 1, id);
    }
  }

  // ----- One installation -----

  // After the installation the policy is right if and only if it was taken well.
  lemma BringsWellIff(r: Run, p: Pid, k: nat, i: nat, id: Id, v: Policy)
    requires ValidRun(r) && Brings(r, p, k, i, id, v)
    ensures Agrees(r.states[i + 1].committed, id, v) || Invalidating(r.states[i + 1], id) <==> TakenWell(r, k, i, id, v)
  {
    QuietTable(r, p, k, i, id, v);
    if ChangedBetween(r, k, i, id) {
      var n: nat :| k < n < i && ChangesAt(r, n, id);
      ChangeInvalidates(r, n, id);
      TablesHold(r, k, n + 1);
      TablesHold(r, n + 1, i);
      InvalidationStays(r, n + 1, i, id);
      InstallKeepsInvalidation(r, p, i, id, v);
    } else {
      NoChangeInside(r, p, k, i, id, v);
      NoChangeSince(r, k, i + 1, id);
      if Invalidating(r.states[k], id) {
        InvalidationStays(r, k, i, id);
        InstallKeepsInvalidation(r, p, i, id, v);
      }
    }
  }

  lemma InstallKeepsInvalidation(r: Run, p: Pid, i: nat, id: Id, v: Policy)
    requires ValidRun(r) && i < |r.acts| && r.acts[i] == Action(p, Swap) && Carries(PhaseOf(r.states[i], p), id, v)
    requires Invalidating(r.states[i], id)
    ensures Invalidating(r.states[i + 1], id)
  {
    assert StepAt(r, i);
    StillInvalidating(r.states[i], r.acts[i], r.states[i + 1], id);
  }

  lemma NoChangeInside(r: Run, p: Pid, k: nat, i: nat, id: Id, v: Policy)
    requires ValidRun(r) && Brings(r, p, k, i, id, v) && !ChangedBetween(r, k, i, id)
    ensures forall n :: k <= n < i + 1 ==> !ChangesAt(r, n, id)
  {
    forall n: nat | k <= n < i + 1 ensures !ChangesAt(r, n, id) {
      assert !(k < n < i && ChangesAt(r, n, id));
    }
  }

  // ----- Whole runs -----

  // The cache is coherent throughout a run if and only if every policy installed
  // in it was taken well: committed when it was read, or under invalidation then,
  // or changed before it was installed.
  lemma CoherentIff(r: Run, id: Id)
    requires ValidRun(r) && CoherentAt(r, 0, id)
    ensures (forall j: nat :: CoherentAt(r, j, id)) <==>
            (forall p, k: nat, i: nat, v :: Brings(r, p, k, i, id, v) ==> TakenWell(r, k, i, id, v))
  {
    CoherentIffSetWell(r, id);
    if forall i: nat :: SetsWell(r, i, id) {
      forall p, k: nat, i: nat, v | Brings(r, p, k, i, id, v) ensures TakenWell(r, k, i, id, v) {
        assert SetsWell(r, i, id) && SetsAt(r, i, id, v);
        BringsWellIff(r, p, k, i, id, v);
      }
    }
    if forall p, k: nat, i: nat, v :: Brings(r, p, k, i, id, v) ==> TakenWell(r, k, i, id, v) {
      forall i: nat ensures SetsWell(r, i, id) {
        forall v | SetsAt(r, i, id, v) ensures Agrees(r.states[i + 1].committed, id, v) || Invalidating(r.states[i + 1], id) {
          var p := r.acts[i].pid;
          var k := FindRead(r, p, i, id, v);
          assert Brings(r, p, k, i, id, v);
          BringsWellIff(r, p, k, i, id, v);
        }
      }
    }
  }
}
