// Providers that do forget (crates/acp/src/dac.rs: some keep an object after a
// local delete, some do not; crates/acp/src/external.rs, `unregister_doc_object`).
// From any state of any run, forgets included: exactly when is a document sure to
// stay guarded as long as nothing more is forgotten?

module Forgetting {
  import opened Options
  import opened Text
  import opened OwedRegistrations

  // ----- What holds even so -----

  // A clearing transaction whose record has not changed since it opened sees the
  // record it is about to delete.
  predicate SeesRecord(sh: Shared, doc: Doc, ph: Phase)
  {
    ph.Deleting? && ph.doc == doc ==>
      ph.at <= sh.commits && (Stamp(sh, doc) <= ph.at ==> RecordOf(sh, doc) == Some(ph.who))
  }

  ghost predicate Base(s: State, doc: Doc)
  {
    && RecordIsCreators(s.sh, doc) && Stamp(s.sh, doc) <= s.sh.commits
    && forall p :: SeesRecord(s.sh, doc, PhaseOf(s, p))
  }

  // A record that changed bears a later stamp.
  predicate StampsLater(sh: Shared, sh': Shared, doc: Doc)
  {
    && sh.commits <= sh'.commits && Stamp(sh', doc) <= sh'.commits
    && (Stamp(sh', doc) > sh.commits || (Stamp(sh', doc) == Stamp(sh, doc) && RecordOf(sh', doc) == RecordOf(sh, doc)))
  }

  lemma WorldStamps(sh: Shared, w: World, doc: Doc)
    requires RecordIsCreators(sh, doc) && Stamp(sh, doc) <= sh.commits && WorldMay(sh, w)
    ensures RecordIsCreators(WorldEffect(sh, w), doc) && StampsLater(sh, WorldEffect(sh, w), doc)
  {
    match w
    case Create(d, creator) => SetRecordIsLater(sh.(live := sh.live[d := creator]), d, creator, doc);
    case Delete(d) => SetRecordIsLater(sh.(live := sh.live - {d}), d, None, doc);
    case _ =>
  }

  lemma MoveStamps(sh: Shared, ph: Phase, m: Move, doc: Doc)
    requires RecordIsCreators(sh, doc) && Stamp(sh, doc) <= sh.commits && SeesRecord(sh, doc, ph) && May(ph, m)
    ensures RecordIsCreators(Effect(sh, ph, m), doc) && StampsLater(sh, Effect(sh, ph, m), doc)
    ensures SeesRecord(Effect(sh, ph, m), doc, After(sh, ph, m))
  {
    if m.CommitClear? { SetRecordIsLater(sh, ph.doc, None, doc); }
  }

  lemma BaseStep(s: State, a: Action, s': State, doc: Doc)
    requires Base(s, doc) && Next(s, a, s')
    ensures Base(s', doc) && StampsLater(s.sh, s'.sh, doc)
  {
    match a {
      case ByWorld(w) => WorldStamps(s.sh, w, doc);
      case ByProcess(p, m) =>
        assert SeesRecord(s.sh, doc, PhaseOf(s, p));
        MoveStamps(s.sh, PhaseOf(s, p), m, doc);
    }
    forall q ensures SeesRecord(s'.sh, doc, PhaseOf(s', q)) {
      assert SeesRecord(s.sh, doc, PhaseOf(s, q));
      if !(a.ByProcess? && q == a.pid) { assert PhaseOf(s', q) == PhaseOf(s, q); }
    }
  }

  lemma {:induction false} BaseHolds(r: Run, doc: Doc, j: nat)
    requires ValidRun(r) && j < |r.states|
    ensures Base(r.states[j], doc)
  {
    if j > 0 {
      BaseHolds(r, doc, j - 1);
      assert StepAt(r, j - 1);
      BaseStep(r.states[j - 1], r.acts[j - 1], r.states[j], doc);
    }
  }

  // ----- Safe states -----

  // A settler past its question to the provider: it will clear the record, or has
  // opened the transaction that does and not lost the race for it.
  predicate Armed(sh: Shared, doc: Doc, ph: Phase)
  {
    (ph.Clearing? && ph.doc == doc) || (ph.Deleting? && ph.doc == doc && Stamp(sh, doc) <= ph.at)
  }

  // Guarded now, and registered unless no such settler is about.
  ghost predicate Safe(s: State, doc: Doc)
  {
    Guarded(s.sh, doc) && (doc in s.sh.provider || forall p :: !Armed(s.sh, doc, PhaseOf(s, p)))
  }

  // Time disarms: a stamp passed stays passed.
  lemma StaysDisarmed(sh: Shared, sh': Shared, doc: Doc, ph: Phase)
    requires StampsLater(sh, sh', doc) && SeesRecord(sh, doc, ph) && !Armed(sh, doc, ph)
    ensures !Armed(sh', doc, ph)
  {
  }

  lemma SafeWorld(s: State, w: World, s': State, doc: Doc)
    requires Base(s, doc) && Safe(s, doc) && Next(s, ByWorld(w), s') && w != ProviderForget(doc)
    ensures Safe(s', doc)
  {
    WorldKeeps(s.sh, w, doc);
    WorldStamps(s.sh, w, doc);
    if doc !in s'.sh.provider {
      forall p ensures !Armed(s'.sh, doc, PhaseOf(s', p)) {
        assert PhaseOf(s', p) == PhaseOf(s, p) && SeesRecord(s.sh, doc, PhaseOf(s, p));
        StaysDisarmed(s.sh, s'.sh, doc, PhaseOf(s, p));
      }
    }
  }

  lemma SafeMove(s: State, p: Pid, m: Move, s': State, doc: Doc)
    requires Base(s, doc) && Safe(s, doc) && Next(s, ByProcess(p, m), s')
    ensures Safe(s', doc)
  {
    assert SeesRecord(s.sh, doc, PhaseOf(s, p));
    MoveStamps(s.sh, PhaseOf(s, p), m, doc);
    if doc !in s'.sh.provider {
      MoveWithoutProvider(s.sh, PhaseOf(s, p), m, doc);
      forall q ensures !Armed(s'.sh, doc, PhaseOf(s', q)) {
        if q != p {
          assert PhaseOf(s', q) == PhaseOf(s, q) && SeesRecord(s.sh, doc, PhaseOf(s, q));
          StaysDisarmed(s.sh, s'.sh, doc, PhaseOf(s, q));
        }
      }
    }
  }

  // A process that was not armed neither arms itself nor unguards the document
  // while the provider does not hold it.
  lemma MoveWithoutProvider(sh: Shared, ph: Phase, m: Move, doc: Doc)
    requires May(ph, m) && Guarded(sh, doc) && SeesRecord(sh, doc, ph) && !Armed(sh, doc, ph)
    requires doc !in Effect(sh, ph, m).provider
    ensures Guarded(Effect(sh, ph, m), doc) && !Armed(Effect(sh, ph, m), doc, After(sh, ph, m))
  {
  }

  // ----- Continuations -----

  // A run on from `s` in which `doc` is not forgotten.
  ghost predicate Continues(t: Run, s: State, doc: Doc)
  {
    && |t.states| == |t.acts| + 1 && t.states[0] == s
    && forall i :: 0 <= i < |t.acts| ==> StepAt(t, i) && t.acts[i] != ByWorld(ProviderForget(doc))
  }

  ghost predicate GuardedThroughout(t: Run, doc: Doc)
  {
    forall i :: 0 <= i < |t.states| ==> Guarded(t.states[i].sh, doc)
  }

  ghost predicate SureToStayGuarded(s: State, doc: Doc)
  {
    forall t :: Continues(t, s, doc) ==> GuardedThroughout(t, doc)
  }

  lemma {:induction false} SafeStays(t: Run, s: State, doc: Doc, i: nat)
    requires Base(s, doc) && Safe(s, doc) && Continues(t, s, doc) && i < |t.states|
    ensures Base(t.states[i], doc) && Safe(t.states[i], doc)
  {
    if i > 0 {
      SafeStays(t, s, doc, i - 1);
      assert StepAt(t, i - 1);
      BaseStep(t.states[i - 1], t.acts[i - 1], t.states[i], doc);
      match t.acts[i - 1]
      case ByWorld(w) => SafeWorld(t.states[i - 1], w, t.states[i], doc);
      case ByProcess(p, m) => SafeMove(t.states[i - 1], p, m, t.states[i], doc);
    }
  }

  lemma {:induction false} Prepend(s: State, a: Action, s': State, t: Run, doc: Doc) returns (u: Run)
    requires Next(s, a, s') && a != ByWorld(ProviderForget(doc)) && Continues(t, s', doc) && !GuardedThroughout(t, doc)
    ensures Continues(u, s, doc) && !GuardedThroughout(u, doc)
  {
    u := Run([s] + t.states, [a] + t.acts);
    forall i | 0 <= i < |u.acts| ensures StepAt(u, i) && u.acts[i] != ByWorld(ProviderForget(doc)) {
      if i > 0 { assert StepAt(t, i - 1) && u.acts[i] == t.acts[i - 1]; }
    }
    var n :| 0 <= n < |t.states| && !Guarded(t.states[n].sh, doc);
    assert u.states[n + 1] == t.states[n];
  }

  // A transaction that has not lost the race deletes the record.
  lemma DeletingUnguards(s: State, p: Pid, doc: Doc) returns (t: Run)
    requires Base(s, doc) && doc !in s.sh.provider
    requires PhaseOf(s, p).Deleting? && Armed(s.sh, doc, PhaseOf(s, p))
    ensures Continues(t, s, doc) && !GuardedThroughout(t, doc)
  {
    var ph := PhaseOf(s, p);
    assert SeesRecord(s.sh, doc, ph);
    var s' := State(Effect(s.sh, ph, CommitClear), s.procs[p := After(s.sh, ph, CommitClear)]);
    assert !Guarded(s'.sh, doc);
    t := Prepend(s, ByProcess(p, CommitClear), s', Run([s'], []), doc);
  }

  // A settler that finds the record it knows opens that transaction.
  lemma ClearingUnguards(s: State, p: Pid, doc: Doc) returns (t: Run)
    requires Base(s, doc) && doc !in s.sh.provider
    requires PhaseOf(s, p).Clearing? && PhaseOf(s, p).doc == doc && RecordOf(s.sh, doc) == Some(PhaseOf(s, p).who)
    ensures Continues(t, s, doc) && !GuardedThroughout(t, doc)
  {
    var s' := State(s.sh, s.procs[p := After(s.sh, PhaseOf(s, p), OpenClear)]);
    BaseStep(s, ByProcess(p, OpenClear), s', doc);
    t := DeletingUnguards(s', p, doc);
    t := Prepend(s, ByProcess(p, OpenClear), s', t, doc);
  }

  // And it finds it once the same creator has created the document again.
  lemma RecreatingUnguards(s: State, p: Pid, doc: Doc) returns (t: Run)
    requires Base(s, doc) && doc !in s.sh.provider && doc !in s.sh.live
    requires PhaseOf(s, p).Clearing? && PhaseOf(s, p).doc == doc
    ensures Continues(t, s, doc) && !GuardedThroughout(t, doc)
  {
    var a := ByWorld(Create(doc, Some(PhaseOf(s, p).who)));
    var s' := State(WorldEffect(s.sh, a.world), s.procs);
    BaseStep(s, a, s', doc);
    t := ClearingUnguards(s', p, doc);
    t := Prepend(s, a, s', t, doc);
  }

  lemma SettlerUnguards(s: State, p: Pid, doc: Doc) returns (t: Run)
    requires Base(s, doc) && doc !in s.sh.provider && Armed(s.sh, doc, PhaseOf(s, p))
    ensures Continues(t, s, doc) && !GuardedThroughout(t, doc)
  {
    if PhaseOf(s, p).Deleting? {
      t := DeletingUnguards(s, p, doc);
    } else if doc in s.sh.live {
      var s' := State(WorldEffect(s.sh, Delete(doc)), s.procs);
      BaseStep(s, ByWorld(Delete(doc)), s', doc);
      t := RecreatingUnguards(s', p, doc);
      t := Prepend(s, ByWorld(Delete(doc)), s', t, doc);
    } else {
      t := RecreatingUnguards(s, p, doc);
    }
  }

  // From a state of any run, whatever was forgotten before: the document is sure
  // to stay guarded as long as it is not forgotten again if and only if it is
  // guarded now and either registered or free of settlers that would clear its
  // record without asking again.
  lemma StaysGuardedIff(r: Run, j: nat, doc: Doc)
    requires ValidRun(r) && j < |r.states|
    ensures SureToStayGuarded(r.states[j], doc) <==> Safe(r.states[j], doc)
  {
    var s := r.states[j];
    BaseHolds(r, doc, j);
    if Safe(s, doc) {
      forall t | Continues(t, s, doc) ensures GuardedThroughout(t, doc) {
        forall i | 0 <= i < |t.states| ensures Guarded(t.states[i].sh, doc) {
          SafeStays(t, s, doc, i);
        }
      }
    } else if !Guarded(s.sh, doc) {
      var t := Run([s], []);
      assert Continues(t, s, doc) && t.states[0] == s && !GuardedThroughout(t, doc);
    } else {
      var p :| Armed(s.sh, doc, PhaseOf(s, p));
      var t := SettlerUnguards(s, p, doc);
      assert Continues(t, s, doc) && !GuardedThroughout(t, doc);
    }
  }

  // Such a settler can be left over: it registered the document and has yet to
  // clear the record when the document is deleted and then forgotten. Nothing is
  // unguarded there, and the same creator creating it again may be.
  lemma ForgottenBehindASettler(sh: Shared, doc: Doc, creator: Bytes) returns (r: Run)
    requires sh.live == map[] && sh.records == map[] && sh.changed == map[] && doc !in sh.provider
    ensures ValidRun(r) && r.states[0] == State(sh, map[])
    ensures Guarded(r.states[|r.acts|].sh, doc) && !SureToStayGuarded(r.states[|r.acts|], doc)
  {
    var owed := WorldEffect(sh, Create(doc, Some(creator)));
    var none: map<Pid, Phase> := map[];
    r := Run([State(sh, none)], []);
    r := Grow(r, ByWorld(Create(doc, Some(creator))), State(owed, none));
    r := Grow(r, ByProcess(0, BeginSettle(doc, Redrive)), State(owed, map[0 := Settling(doc, Redrive)]));
    r := Grow(r, ByProcess(0, ReadOwed), State(owed, map[0 := Checking(doc, creator, Redrive)]));
    r := Grow(r, ByProcess(0, CheckProvider), State(owed, map[0 := Registering(doc, creator, Redrive)]));
    var registered := AtProvider(owed, doc, creator);
    var clearing: map<Pid, Phase> := map[0 := Clearing(doc, creator, Redrive)];
    r := Grow(r, ByProcess(0, RegisterAtProvider(false)), State(registered, clearing));
    var deleted := WorldEffect(registered, Delete(doc));
    r := Grow(r, ByWorld(Delete(doc)), State(deleted, clearing));
    var end := State(WorldEffect(deleted, ProviderForget(doc)), clearing);
    r := Grow(r, ByWorld(ProviderForget(doc)), end);
    assert r.states[|r.acts|] == end && Armed(end.sh, doc, PhaseOf(end, 0));
    StaysGuardedIff(r, |r.acts|, doc);
  }
}
