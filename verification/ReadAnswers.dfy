// What the read rule answers, for every document and every interleaving: each
// answer traced back to the reads it rests on (crates/acp/src/read_access.rs,
// crates/acp/src/external.rs).

module ReadAnswers {
  import opened Options
  import opened Identities
  import opened OwedRegistrations

  // What a check asks; no document for a collection-level commit.
  datatype Question = Question(doc: Option<Doc>, collection: Doc, id: Identity, branchable: bool)

  // `p`'s check began at step `b` and has not been dropped by state `j`.
  ghost predicate Asks(r: Run, p: Pid, b: nat, j: nat, q: Question)
    requires ValidRun(r)
  {
    && b < j < |r.states| && r.acts[b] == ByProcess(p, BeginRead(q.doc, q.collection, q.id, q.branchable))
    && (forall i :: b <= i < j && i < |r.acts| ==> r.acts[i] != ByProcess(p, Crash))
  }

  // Step `i` is a read of that check.
  ghost predicate ReadsAt(r: Run, p: Pid, b: nat, i: nat, j: nat)
    requires ValidRun(r)
  {
    b < i < j && i < |r.acts| && r.acts[i] == ByProcess(p, ReadStep)
  }

  // ----- What the reads saw -----

  predicate Owed(sh: Shared, t: Doc)
  {
    t in sh.records
  }

  predicate Held(sh: Shared, t: Doc)
  {
    t in sh.provider
  }

  ghost predicate SawUnowed(r: Run, p: Pid, b: nat, j: nat, t: Doc)
    requires ValidRun(r)
  {
    exists i: nat :: ReadsAt(r, p, b, i, j) && !Owed(r.states[i].sh, t)
  }

  // One read found a record, or the provider holding the object.
  ghost predicate SawRegistered(r: Run, p: Pid, b: nat, j: nat, t: Doc)
    requires ValidRun(r)
  {
    exists i: nat :: ReadsAt(r, p, b, i, j) && (Owed(r.states[i].sh, t) || Held(r.states[i].sh, t))
  }

  // One found no record, a later one no object at the provider.
  ghost predicate SawUnregistered(r: Run, p: Pid, b: nat, j: nat, t: Doc)
    requires ValidRun(r)
  {
    exists k: nat :: ReadsAt(r, p, b, k, j) && SawUnowed(r, p, b, k, t) && !Held(r.states[k].sh, t)
  }

  // One found it registered, a later one no record.
  ghost predicate SawSettled(r: Run, p: Pid, b: nat, j: nat, t: Doc)
    requires ValidRun(r)
  {
    exists k: nat :: ReadsAt(r, p, b, k, j) && SawRegistered(r, p, b, k, t) && !Owed(r.states[k].sh, t)
  }

  // ----- Answers -----

  // Read `k` decides the answer on object `t`, on the given basis.
  ghost predicate Decides(r: Run, p: Pid, b: nat, k: nat, t: Doc, id: Identity, granted: bool, basis: Basis)
    requires ValidRun(r) && k < |r.states|
  {
    var sh := r.states[k].sh;
    match basis
    case Unchecked => false
    case Unregistered => SawUnowed(r, p, b, k, t) && !Held(sh, t) && granted == sh.publicByDefault
    case ByRecord(creator) =>
      SawRegistered(r, p, b, k, t) && RecordOf(sh, t) == Some(creator) && (granted <==> id == Authenticated(creator))
    case ByProvider(registered) =>
      && SawSettled(r, p, b, k, t) && (registered <==> Held(sh, t))
      && (granted <==> if registered then t in sh.grants && id in sh.grants[t] else sh.publicByDefault)
  }

  ghost predicate Decided(r: Run, p: Pid, b: nat, j: nat, t: Doc, id: Identity, granted: bool, basis: Basis)
    requires ValidRun(r)
  {
    exists k: nat :: ReadsAt(r, p, b, k, j) && Decides(r, p, b, k, t, id, granted, basis)
  }

  // The check may look at the collection's object: it is asked about it, or the
  // collection is branchable and the document was found neither owed nor held.
  ghost predicate FallsBack(r: Run, p: Pid, b: nat, j: nat, q: Question)
    requires ValidRun(r)
  {
    q.branchable && (q.doc.Some? ==> SawUnregistered(r, p, b, j, q.doc.value))
  }

  // Where a check stands: what its reads have seen, or what decided it.
  ghost predicate Stands(r: Run, p: Pid, b: nat, j: nat, q: Question, ph: Phase)
    requires ValidRun(r)
  {
    match ph
    case Reading(d, c, id, branchable, onCollection, stage) =>
      && c == q.collection && id == q.id && branchable == q.branchable
      && (if onCollection then FallsBack(r, p, b, j, q) else q.doc == Some(d))
      && var t := if onCollection then c else d;
      && (stage == AskRegistered ==> SawUnowed(r, p, b, j, t))
      && (stage == OwedAgain ==> SawRegistered(r, p, b, j, t))
      && (stage == AskAccess ==> SawSettled(r, p, b, j, t))
    case Answered(d, id, granted, onCollection, basis) =>
      && id == q.id
      && (basis == Unchecked <==> q.doc.None? && !q.branchable)
      && (basis == Unchecked ==> granted && onCollection)
      && (basis != Unchecked && onCollection ==>
            FallsBack(r, p, b, j, q) && Decided(r, p, b, j, q.collection, id, granted, basis))
      && (!onCollection ==> q.doc == Some(d) && Decided(r, p, b, j, d, id, granted, basis))
      && (!onCollection && basis == Unregistered ==> !q.branchable)
    case _ => false
  }

  // What was seen stays seen.
  lemma Later(r: Run, p: Pid, b: nat, j: nat, q: Question, ph: Phase)
    requires ValidRun(r) && Stands(r, p, b, j, q, ph)
    ensures Stands(r, p, b, j + 1, q, ph)
  {
    assert forall i: nat :: ReadsAt(r, p, b, i, j) ==> ReadsAt(r, p, b, i, j + 1);
  }

  // One more read.
  lemma ReadFurther(r: Run, p: Pid, b: nat, j: nat, q: Question)
    requires ValidRun(r) && ReadsAt(r, p, b, j, j + 1) && j < |r.states|
    requires PhaseOf(r.states[j], p).Reading? && Stands(r, p, b, j, q, PhaseOf(r.states[j], p))
    ensures Stands(r, p, b, j + 1, q, ReadOnce(r.states[j].sh, PhaseOf(r.states[j], p)))
  {
    var sh, ph := r.states[j].sh, PhaseOf(r.states[j], p);
    Later(r, p, b, j, q, ph);
  }

  // Every check of every run: it rests on its own reads, in this order. Without
  // fallback the document decides; the collection's object is asked exactly for a
  // branchable collection whose document is neither owed nor held; what is not
  // registered is as public as the provider says.
  lemma {:induction false} AnswersRestOnReads(r: Run, p: Pid, b: nat, j: nat, q: Question)
    requires ValidRun(r) && Asks(r, p, b, j, q)
    ensures Stands(r, p, b, j, q, PhaseOf(r.states[j], p))
  {
    if j == b + 1 {
      assert StepAt(r, b);
    } else {
      AnswersRestOnReads(r, p, b, j - 1, q);
      var s, a, s' := r.states[j - 1], r.acts[j - 1], r.states[j];
      assert StepAt(r, j - 1);
      if a.ByProcess? && a.pid == p {
        assert PhaseOf(s, p).Reading? && a.move == ReadStep;
        ReadFurther(r, p, b, j - 1, q);
      } else {
        assert PhaseOf(s', p) == PhaseOf(s, p);
        Later(r, p, b, j - 1, q, PhaseOf(s, p));
      }
    }
  }

  // ----- Undisturbed checks -----

  // What one object says: its record's creator, its grants, or the default.
  predicate ObjectAdmits(sh: Shared, t: Doc, id: Identity)
  {
    if t in sh.records then id == Authenticated(sh.records[t])
    else if t in sh.provider then t in sh.grants && id in sh.grants[t]
    else sh.publicByDefault
  }

  // The read rule, at one instant.
  predicate MayRead(sh: Shared, q: Question)
  {
    if q.doc.Some? && (q.doc.value in sh.records || q.doc.value in sh.provider || !q.branchable)
    then ObjectAdmits(sh, q.doc.value, q.id)
    else q.branchable ==> ObjectAdmits(sh, q.collection, q.id)
  }

  // The two states agree on everything a check of `t` reads.
  predicate Alike(sh: Shared, sh': Shared, t: Doc)
  {
    && RecordOf(sh, t) == RecordOf(sh', t) && (t in sh.provider <==> t in sh'.provider)
    && (t in sh.grants <==> t in sh'.grants) && (t in sh.grants ==> sh.grants[t] == sh'.grants[t])
    && sh.publicByDefault == sh'.publicByDefault
  }

  ghost predicate Quiet(r: Run, b: nat, j: nat, q: Question)
    requires ValidRun(r) && b < j < |r.states|
  {
    forall i :: b <= i < j ==>
      && Alike(r.states[i].sh, r.states[b].sh, q.collection)
      && (q.doc.Some? ==> Alike(r.states[i].sh, r.states[b].sh, q.doc.value))
  }

  // A check during which nothing it reads changes answers by the rule.
  lemma QuietAnswerIsTheRule(r: Run, p: Pid, b: nat, j: nat, q: Question)
    requires ValidRun(r) && Asks(r, p, b, j, q) && Quiet(r, b, j, q) && PhaseOf(r.states[j], p).Answered?
    ensures PhaseOf(r.states[j], p).granted <==> MayRead(r.states[b].sh, q)
  {
    AnswersRestOnReads(r, p, b, j, q);
    assert forall i: nat :: ReadsAt(r, p, b, i, j) ==> b <= i < j;
  }

  // ----- Checks end -----

  function Reads(r: Run, p: Pid, b: nat, j: nat): nat
    requires b <= j <= |r.acts|
  {
    if j == b then 0 else Reads(r, p, b, j - 1) + if r.acts[j - 1] == ByProcess(p, ReadStep) then 1 else 0
  }

  function StageNumber(stage: Stage): nat
  {
    match stage
    case OwedFirst => 0
    case AskRegistered => 1
    case OwedAgain => 2
    case AskAccess => 3
  }

  // A check still reading has made at most five reads, three on one object: the
  // sixth read answers.
  lemma {:induction false} ChecksEnd(r: Run, p: Pid, b: nat, j: nat, q: Question)
    requires ValidRun(r) && Asks(r, p, b, j, q)
    ensures var ph := PhaseOf(r.states[j], p);
            ph.Reading? ==> Reads(r, p, b, j) <= StageNumber(ph.stage) + if ph.onCollection then 2 else 0
    ensures Reads(r, p, b, j) <= 6
  {
    if j == b + 1 {
      assert StepAt(r, b);
    } else {
      ChecksEnd(r, p, b, j - 1, q);
      AnswersRestOnReads(r, p, b, j - 1, q);
      assert StepAt(r, j - 1);
      var s, a, s' := r.states[j - 1], r.acts[j - 1], r.states[j];
      if a.ByProcess? && a.pid == p {
        assert PhaseOf(s, p).Reading? && a.move == ReadStep;
      } else {
        assert PhaseOf(s', p) == PhaseOf(s, p);
      }
    }
  }
}
