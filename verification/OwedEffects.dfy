// What the steps of the owed-registration protocol do to one document's record
// and to its owner at the provider, and where owners come from
// (crates/acp/src/external.rs). Nothing here rests on the provider keeping
// objects.

module OwedEffects {
  import opened Options
  import opened Text
  import opened OwedRegistrations

  function OwnerOf(sh: Shared, doc: Doc): Option<Bytes>
  {
    if doc in sh.provider then Some(sh.provider[doc]) else None
  }

  // The owner a step would register `doc` under.
  function Registers(s: State, a: Action, doc: Doc): Option<Bytes>
  {
    match a
    case ByWorld(ForeignRegister(d, who)) => if d == doc then Some(who) else None
    case ByProcess(p, RegisterAtProvider(_)) =>
      var ph := PhaseOf(s, p);
      if ph.Registering? && ph.doc == doc then Some(ph.who) else None
    case _ => None
  }

  // An object gets its owner from the first registration after it was absent and
  // keeps it until it is forgotten.
  lemma OwnerAfterStep(s: State, a: Action, s': State, doc: Doc)
    requires Next(s, a, s')
    ensures OwnerOf(s'.sh, doc) ==
            if a == ByWorld(ProviderForget(doc)) then None
            else if OwnerOf(s.sh, doc).Some? then OwnerOf(s.sh, doc)
            else Registers(s, a, doc)
  {
    match a
    case ByWorld(w) => OwnerAfterWorld(s.sh, w, doc);
    case ByProcess(p, m) => OwnerAfterMove(s.sh, PhaseOf(s, p), m, doc);
  }

  lemma OwnerAfterWorld(sh: Shared, w: World, doc: Doc)
    requires WorldMay(sh, w)
    ensures OwnerOf(WorldEffect(sh, w), doc) ==
            if w == ProviderForget(doc) then None
            else if w.ForeignRegister? && w.doc == doc && OwnerOf(sh, doc).None? then Some(w.who)
            else OwnerOf(sh, doc)
  {
  }

  lemma OwnerAfterMove(sh: Shared, ph: Phase, m: Move, doc: Doc)
    requires May(ph, m)
    ensures OwnerOf(Effect(sh, ph, m), doc) ==
            if m.RegisterAtProvider? && ph.doc == doc && OwnerOf(sh, doc).None? then Some(ph.who)
            else OwnerOf(sh, doc)
  {
  }

  // ----- Where owners come from -----

  // `p` read, before state `j`, a record of `doc` that names `who`.
  ghost predicate SawRecord(r: Run, p: Pid, j: nat, doc: Doc, who: Bytes)
    requires ValidRun(r)
  {
    exists i :: 0 <= i < j && i < |r.acts| && r.acts[i] == ByProcess(p, ReadOwed) && RecordOf(r.states[i].sh, doc) == Some(who)
  }

  predicate WorksFor(ph: Phase, doc: Doc, who: Bytes)
  {
    match ph
    case Checking(d, w, _) => d == doc && w == who
    case Registering(d, w, _) => d == doc && w == who
    case Clearing(d, w, _) => d == doc && w == who
    case Deleting(d, w, _, _) => d == doc && w == who
    case _ => false
  }

  // A settler works for the creator its own read of the record named.
  lemma {:induction false} SettlersWorkForTheRecord(r: Run, p: Pid, j: nat, doc: Doc, who: Bytes)
    requires ValidRun(r) && j < |r.states| && WorksFor(PhaseOf(r.states[j], p), doc, who)
    ensures SawRecord(r, p, j, doc, who)
  {
    assert j > 0;
    var s, a, s' := r.states[j - 1], r.acts[j - 1], r.states[j];
    assert StepAt(r, j - 1);
    if a == ByProcess(p, ReadOwed) {
      assert RecordOf(s.sh, doc) == Some(who);
    } else {
      assert PhaseOf(s', p) == PhaseOf(s, p) || (a.ByProcess? && a.pid == p);
      assert WorksFor(PhaseOf(s, p), doc, who);
      SettlersWorkForTheRecord(r, p, j - 1, doc, who);
    }
  }

  // `p` was told, before state `j`, that the provider holds `doc`: it asked and
  // the provider did, or its registration was answered.
  ghost predicate Told(r: Run, p: Pid, j: nat, doc: Doc)
    requires ValidRun(r)
  {
    exists i: nat :: i < j && i < |r.acts| && TellsAt(r, p, i, doc)
  }

  ghost predicate TellsAt(r: Run, p: Pid, i: nat, doc: Doc)
    requires ValidRun(r) && i < |r.acts|
  {
    || (r.acts[i] == ByProcess(p, CheckProvider) && doc in r.states[i].sh.provider)
    || (r.acts[i] == ByProcess(p, RegisterAtProvider(false)) && doc in r.states[i + 1].sh.provider)
  }

  // A settler comes to clear a record only after that: never on an error or a
  // lost reply.
  lemma {:induction false} ClearsOnlyWhenTold(r: Run, p: Pid, j: nat, doc: Doc)
    requires ValidRun(r) && j < |r.states|
    requires var ph := PhaseOf(r.states[j], p); (ph.Clearing? || ph.Deleting?) && ph.doc == doc
    ensures Told(r, p, j, doc)
  {
    assert j > 0;
    var s, a, s' := r.states[j - 1], r.acts[j - 1], r.states[j];
    assert StepAt(r, j - 1);
    if a == ByProcess(p, CheckProvider) || a == ByProcess(p, RegisterAtProvider(false)) {
      assert TellsAt(r, p, j - 1, doc);
    } else {
      assert PhaseOf(s', p) == PhaseOf(s, p) || a == ByProcess(p, OpenClear);
      ClearsOnlyWhenTold(r, p, j - 1, doc);
    }
  }

  predicate Forwards(ph: Phase, doc: Doc)
  {
    match ph
    case Settling(d, goal) => d == doc && goal == Forward
    case Checking(d, _, goal) => d == doc && goal == Forward
    case Registering(d, _, goal) => d == doc && goal == Forward
    case Clearing(d, _, goal) => d == doc && goal == Forward
    case Deleting(d, _, goal, _) => d == doc && goal == Forward
    case Forwarding(d, _) => d == doc
    case _ => false
  }

  // Only a call that was to be forwarded is: a redrive ends with its settling.
  lemma {:induction false} OnlyForwardedCallsGoOn(r: Run, p: Pid, j: nat, doc: Doc)
    requires ValidRun(r) && j < |r.states| && Forwards(PhaseOf(r.states[j], p), doc)
    ensures exists b :: 0 <= b < j && r.acts[b] == ByProcess(p, BeginSettle(doc, Forward))
  {
    assert j > 0;
    var s, a, s' := r.states[j - 1], r.acts[j - 1], r.states[j];
    assert StepAt(r, j - 1);
    if a != ByProcess(p, BeginSettle(doc, Forward)) {
      assert PhaseOf(s', p) == PhaseOf(s, p) || (a.ByProcess? && a.pid == p);
      assert Forwards(PhaseOf(s, p), doc);
      OnlyForwardedCallsGoOn(r, p, j - 1, doc);
    }
  }

  // A record always names the identity that created the live document.
  lemma {:induction false} RecordsNameCreators(r: Run, doc: Doc, j: nat)
    requires ValidRun(r) && j < |r.states|
    ensures RecordIsCreators(r.states[j].sh, doc)
  {
    if j > 0 {
      RecordsNameCreators(r, doc, j - 1);
      assert StepAt(r, j - 1);
      RecordsNameCreatorsStep(r.states[j - 1], r.acts[j - 1], r.states[j], doc);
    }
  }

  lemma RecordsNameCreatorsStep(s: State, a: Action, s': State, doc: Doc)
    requires Next(s, a, s') && RecordIsCreators(s.sh, doc)
    ensures RecordIsCreators(s'.sh, doc)
  {
    match a
    case ByWorld(w) => RecordsNameCreatorsWorld(s.sh, w, doc);
    case ByProcess(p, m) =>
  }

  lemma RecordsNameCreatorsWorld(sh: Shared, w: World, doc: Doc)
    requires WorldMay(sh, w) && RecordIsCreators(sh, doc)
    ensures RecordIsCreators(WorldEffect(sh, w), doc)
  {
  }

  // `who` created `doc`, which was live at some state up to `j`.
  ghost predicate Created(r: Run, j: nat, doc: Doc, who: Bytes)
    requires ValidRun(r)
  {
    exists i :: 0 <= i <= j && i < |r.states| && doc in r.states[i].sh.live && r.states[i].sh.live[doc] == Some(who)
  }

  ghost predicate RegisteredByOthers(r: Run, j: nat, doc: Doc, who: Bytes)
  {
    exists i :: 0 <= i < j && i < |r.acts| && r.acts[i] == ByWorld(ForeignRegister(doc, who))
  }

  // Whoever owns an object at the provider owned it from the start, was
  // registered there by another client, or created the document it belongs to.
  lemma {:induction false} OwnersAreCreators(r: Run, doc: Doc, j: nat)
    requires ValidRun(r) && j < |r.states| && doc in r.states[j].sh.provider
    ensures var who := r.states[j].sh.provider[doc];
            OwnerOf(r.states[0].sh, doc) == Some(who) || RegisteredByOthers(r, j, doc, who) || Created(r, j, doc, who)
  {
    if j > 0 {
      var s, a, s' := r.states[j - 1], r.acts[j - 1], r.states[j];
      assert StepAt(r, j - 1);
      OwnerAfterStep(s, a, s', doc);
      var who := s'.sh.provider[doc];
      if doc in s.sh.provider {
        OwnersAreCreators(r, doc, j - 1);
      } else if a.ByProcess? {
        SettlersWorkForTheRecord(r, a.pid, j - 1, doc, who);
        var i :| 0 <= i < j - 1 && i < |r.acts| && r.acts[i] == ByProcess(a.pid, ReadOwed)
                 && RecordOf(r.states[i].sh, doc) == Some(who);
        RecordsNameCreators(r, doc, i);
      }
    }
  }

  // ----- Records -----

  lemma {:induction false} StampsInThePast(r: Run, doc: Doc, j: nat)
    requires ValidRun(r) && j < |r.states|
    ensures Stamp(r.states[j].sh, doc) <= r.states[j].sh.commits
  {
    if j > 0 {
      StampsInThePast(r, doc, j - 1);
      assert StepAt(r, j - 1);
      RecordStep(r.states[j - 1], r.acts[j - 1], r.states[j], doc);
    }
  }

  // A step that changes the record stamps it; any other leaves record and stamp.
  lemma RecordStep(s: State, a: Action, s': State, doc: Doc)
    requires Next(s, a, s') && Stamp(s.sh, doc) <= s.sh.commits
    ensures s.sh.commits <= s'.sh.commits && Stamp(s'.sh, doc) <= s'.sh.commits
    ensures if RecordOf(s'.sh, doc) == RecordOf(s.sh, doc) then Stamp(s'.sh, doc) == Stamp(s.sh, doc)
            else Stamp(s'.sh, doc) > s.sh.commits
  {
    match a
    case ByWorld(w) => RecordStepWorld(s.sh, w, doc);
    case ByProcess(p, m) => RecordStepMove(s.sh, PhaseOf(s, p), m, doc);
  }

  lemma RecordStepMove(sh: Shared, ph: Phase, m: Move, doc: Doc)
    requires May(ph, m) && Stamp(sh, doc) <= sh.commits
    ensures var sh' := Effect(sh, ph, m);
            && sh.commits <= sh'.commits && Stamp(sh', doc) <= sh'.commits
            && if RecordOf(sh', doc) == RecordOf(sh, doc) then Stamp(sh', doc) == Stamp(sh, doc)
               else Stamp(sh', doc) > sh.commits
  {
    if m.CommitClear? { SetRecordIsLater(sh, ph.doc, None, doc); }
  }

  lemma RecordStepWorld(sh: Shared, w: World, doc: Doc)
    requires WorldMay(sh, w) && Stamp(sh, doc) <= sh.commits
    ensures var sh' := WorldEffect(sh, w);
            && sh.commits <= sh'.commits && Stamp(sh', doc) <= sh'.commits
            && if RecordOf(sh', doc) == RecordOf(sh, doc) then Stamp(sh', doc) == Stamp(sh, doc)
               else Stamp(sh', doc) > sh.commits
  {
    match w
    case Create(d, creator) => SetRecordIsLater(sh.(live := sh.live[d := creator]), d, creator, doc);
    case Delete(d) => SetRecordIsLater(sh.(live := sh.live - {d}), d, None, doc);
    case _ =>
  }

  // From state `o` to state `j` the record names `who`.
  ghost predicate Stays(r: Run, doc: Doc, who: Bytes, o: nat, j: nat)
    requires ValidRun(r) && j < |r.states|
  {
    forall i :: o <= i <= j ==> RecordOf(r.states[i].sh, doc) == Some(who)
  }

  lemma {:induction false} StampTellsStaying(r: Run, doc: Doc, who: Bytes, o: nat, j: nat)
    requires ValidRun(r) && o <= j < |r.states| && RecordOf(r.states[o].sh, doc) == Some(who)
    ensures r.states[o].sh.commits <= r.states[j].sh.commits
    ensures Stamp(r.states[j].sh, doc) <= r.states[o].sh.commits <==> Stays(r, doc, who, o, j)
  {
    if j == o {
      StampsInThePast(r, doc, o);
    } else {
      StampTellsStaying(r, doc, who, o, j - 1);
      StampsInThePast(r, doc, j - 1);
      assert StepAt(r, j - 1);
      RecordStep(r.states[j - 1], r.acts[j - 1], r.states[j], doc);
      assert Stays(r, doc, who, o, j) <==> Stays(r, doc, who, o, j - 1) && RecordOf(r.states[j].sh, doc) == Some(who);
    }
  }

  // `p` opened its clearing transaction on `doc`'s record at step `o`, on the
  // record it had read, and has done nothing since up to state `j`.
  ghost predicate Opened(r: Run, p: Pid, o: nat, j: nat, doc: Doc, who: Bytes)
    requires ValidRun(r)
  {
    && o < j < |r.states| && r.acts[o] == ByProcess(p, OpenClear)
    && (var ph := PhaseOf(r.states[o], p); ph.Clearing? && ph.doc == doc && ph.who == who)
    && RecordOf(r.states[o].sh, doc) == Some(who)
    && (forall i :: o < i < j && i < |r.acts| ==> !(r.acts[i].ByProcess? && r.acts[i].pid == p))
  }

  lemma {:induction false} StillOpen(r: Run, p: Pid, o: nat, j: nat, doc: Doc, who: Bytes)
    requires ValidRun(r) && Opened(r, p, o, j, doc, who)
    ensures var ph := PhaseOf(r.states[j], p);
            ph.Deleting? && ph.doc == doc && ph.who == who && ph.at == r.states[o].sh.commits
  {
    assert StepAt(r, j - 1);
    if j > o + 1 {
      StillOpen(r, p, o, j - 1, doc, who);
      assert PhaseOf(r.states[j], p) == PhaseOf(r.states[j - 1], p);
    }
  }

  // The clear takes the record away if and only if it stayed as it was from the
  // snapshot to the commit; a record deleted and written again, even under the
  // same name, is left alone.
  lemma ClearsIff(r: Run, p: Pid, o: nat, j: nat, doc: Doc, who: Bytes)
    requires ValidRun(r) && Opened(r, p, o, j, doc, who) && j < |r.acts| && r.acts[j] == ByProcess(p, CommitClear)
    ensures RecordOf(r.states[j + 1].sh, doc) ==
            if Stays(r, doc, who, o, j) then None else RecordOf(r.states[j].sh, doc)
  {
    StillOpen(r, p, o, j, doc, who);
    StampTellsStaying(r, doc, who, o, j);
    assert StepAt(r, j);
    SetRecordIsLater(r.states[j].sh, doc, None, doc) by { StampsInThePast(r, doc, j); }
  }

  // What one step makes of the record: a create with an identity writes it, a
  // delete drops it, a clearing commit may, and nothing else touches it.
  lemma RecordAfterStep(s: State, a: Action, s': State, doc: Doc)
    requires Next(s, a, s')
    ensures RecordOf(s'.sh, doc) ==
            match a
            case ByWorld(Create(d, creator)) => if d == doc && creator.Some? then creator else RecordOf(s.sh, doc)
            case ByWorld(Delete(d)) => if d == doc then None else RecordOf(s.sh, doc)
            case ByProcess(p, CommitClear) =>
              if PhaseOf(s, p).doc == doc && Stamp(s.sh, doc) <= PhaseOf(s, p).at then None else RecordOf(s.sh, doc)
            case _ => RecordOf(s.sh, doc)
  {
    match a
    case ByWorld(w) => RecordAfterWorld(s.sh, w, doc);
    case ByProcess(p, m) =>
  }

  lemma RecordAfterWorld(sh: Shared, w: World, doc: Doc)
    requires WorldMay(sh, w)
    ensures RecordOf(WorldEffect(sh, w), doc) ==
            if w.Create? && w.doc == doc && w.creator.Some? then w.creator
            else if w == Delete(doc) then None
            else RecordOf(sh, doc)
  {
  }
}
