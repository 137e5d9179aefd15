// Registrations owed to an external provider, as a protocol
// (crates/acp/src/external.rs, pending.rs, read_access.rs). Creates and deletes
// commit a document together with its owed record; settlers ask the provider,
// register, then conditionally clear the record; readers decide in several
// separate reads; relationship changes settle first and are then forwarded.
// Any process may stop between any two steps.
//
// The provider answers each call at one instant. That it keeps an object once
// registered is a hypothesis on a run and a document (`Keeps`):
// `ProviderForget` is the step it rules out.

module OwedRegistrations {
  import opened Options
  import opened Text
  import opened Identities

  type Pid = nat

  // A document, or a collection's own object, named by the key its record would
  // have. PendingKeys proves that distinct ones have distinct keys.
  type Doc = Bytes

  // What a settler is for: a redrive, or a call to forward afterwards.
  datatype Goal = Redrive | Forward

  // Where a reader is in `object_access` through the gate: the two reads of
  // `is_doc_registered`, then the two of `check_doc_access`.
  datatype Stage = OwedFirst | AskRegistered | OwedAgain | AskAccess

  // What decided an answer: the record read, the provider asked about an object
  // registered or not at that instant, the unregistered rule, or nothing at all
  // for a collection that is not branchable.
  datatype Basis = ByRecord(creator: Bytes) | ByProvider(registered: bool) | Unregistered | Unchecked

  datatype Phase =
    | Idle
    | Settling(doc: Doc, goal: Goal)
    | Checking(doc: Doc, who: Bytes, goal: Goal)
    | Registering(doc: Doc, who: Bytes, goal: Goal)
    | Clearing(doc: Doc, who: Bytes, goal: Goal)
    | Deleting(doc: Doc, who: Bytes, goal: Goal, at: nat)
    | Forwarding(doc: Doc, settled: bool)
    | Reading(doc: Doc, collection: Doc, id: Identity, branchable: bool, onCollection: bool, stage: Stage)
    | Answered(doc: Doc, id: Identity, granted: bool, onCollection: bool, basis: Basis)
    | Finished

  // The store and the provider. `live`: each live document and the identity
  // that created it, if any. `records`: the creator each owed record names.
  // `changed`: the commit that last changed each record. `provider`: the
  // registered objects and their owners.
  datatype Shared = Shared(
    live: map<Doc, Option<Bytes>>,
    records: map<Doc, Bytes>,
    changed: map<Doc, nat>,
    commits: nat,
    provider: map<Doc, Bytes>,
    grants: map<Doc, set<Identity>>,
    publicByDefault: bool)

  datatype State = State(sh: Shared, procs: map<Pid, Phase>)

  // Steps of everyone else: creating and deleting transactions, and whatever
  // other clients do at the provider.
  datatype World =
    | Create(doc: Doc, creator: Option<Bytes>)
    | Delete(doc: Doc)
    | ForeignRegister(doc: Doc, who: Bytes)
    | Regrant(doc: Doc, to: set<Identity>)
    | ProviderForget(doc: Doc)

  // Steps of one settler, forwarder or reader. A provider error ends it like a
  // crash; a lost reply is an error after the registration took effect. A read of
  // no document is one of a collection-level commit.
  datatype Move =
    | BeginSettle(doc: Doc, goal: Goal)
    | ReadOwed
    | CheckProvider
    | RegisterAtProvider(replyLost: bool)
    | OpenClear
    | CommitClear
    | ForwardCall
    | BeginRead(asked: Option<Doc>, collection: Doc, id: Identity, branchable: bool)
    | ReadStep
    | Crash

  datatype Action = ByWorld(world: World) | ByProcess(pid: Pid, move: Move)

  function RecordOf(sh: Shared, doc: Doc): Option<Bytes>
  {
    if doc in sh.records then Some(sh.records[doc]) else None
  }

  // The commit that last changed `doc`'s record.
  function Stamp(sh: Shared, doc: Doc): nat
  {
    if doc in sh.changed then sh.changed[doc] else 0
  }

  // The record of `doc` becomes `record`; a write that leaves it as it was is
  // not a change.
  function SetRecord(sh: Shared, doc: Doc, record: Option<Bytes>): Shared
  {
    if RecordOf(sh, doc) == record then sh.(commits := sh.commits + 1)
    else sh.(records := if record.Some? then sh.records[doc := record.value] else sh.records - {doc},
             changed := sh.changed[doc := sh.commits + 1],
             commits := sh.commits + 1)
  }

  // A registration: an object already there keeps its owner.
  function AtProvider(sh: Shared, doc: Doc, who: Bytes): Shared
  {
    if doc in sh.provider then sh else sh.(provider := sh.provider[doc := who])
  }

  predicate ProviderGrants(sh: Shared, id: Identity, doc: Doc)
  {
    if doc in sh.provider then doc in sh.grants && id in sh.grants[doc] else sh.publicByDefault
  }

  predicate WorldMay(sh: Shared, w: World)
  {
    match w
    case Create(doc, _) => doc !in sh.live
    case Delete(doc) => doc in sh.live
    case _ => true
  }

  function WorldEffect(sh: Shared, w: World): Shared
  {
    match w
    case Create(doc, creator) =>
      var created := sh.(live := sh.live[doc := creator]);
      if creator.Some? then SetRecord(created, doc, creator) else created
    case Delete(doc) => SetRecord(sh.(live := sh.live - {doc}), doc, None)
    case ForeignRegister(doc, who) => AtProvider(sh, doc, who)
    case Regrant(doc, to) => sh.(grants := sh.grants[doc := to])
    case ProviderForget(doc) => sh.(provider := sh.provider - {doc})
  }

  predicate May(ph: Phase, m: Move)
  {
    match m
    case BeginSettle(_, _) => ph.Idle?
    case ReadOwed => ph.Settling?
    case CheckProvider => ph.Checking?
    case RegisterAtProvider(_) => ph.Registering?
    case OpenClear => ph.Clearing?
    case CommitClear => ph.Deleting?
    case ForwardCall => ph.Forwarding?
    case BeginRead(_, _, _, _) => ph.Idle?
    case ReadStep => ph.Reading?
    case Crash => true
  }

  // Only a registration at the provider and a clearing commit change anything
  // shared. The clearing commit conflicts, and changes nothing, when the record
  // changed since its snapshot.
  function Effect(sh: Shared, ph: Phase, m: Move): Shared
    requires May(ph, m)
  {
    match m
    case RegisterAtProvider(_) => AtProvider(sh, ph.doc, ph.who)
    case CommitClear => if Stamp(sh, ph.doc) > ph.at then sh else SetRecord(sh, ph.doc, None)
    case _ => sh
  }

  // After a settle returned, a redrive is done and a forwarded call goes on.
  function SettleDone(doc: Doc, goal: Goal): Phase
  {
    if goal == Forward then Forwarding(doc, true) else Finished
  }

  // One answer of `object_access` inside `check_doc_read_access`.
  function Resolve(ph: Phase, granted: bool, explicit: bool, basis: Basis): Phase
    requires ph.Reading?
  {
    if !ph.onCollection && !explicit && ph.branchable
    then ph.(onCollection := true, stage := OwedFirst)
    else Answered(ph.doc, ph.id, granted, ph.onCollection, basis)
  }

  function ReadOnce(sh: Shared, ph: Phase): Phase
    requires ph.Reading?
  {
    var target := if ph.onCollection then ph.collection else ph.doc;
    match ph.stage
    case OwedFirst => ph.(stage := if target in sh.records then OwedAgain else AskRegistered)
    case AskRegistered =>
      if target in sh.provider then ph.(stage := OwedAgain)
      else Resolve(ph, sh.publicByDefault, false, Unregistered)
    case OwedAgain =>
      if target in sh.records
      then Resolve(ph, ph.id == Authenticated(sh.records[target]), true, ByRecord(sh.records[target]))
      else ph.(stage := AskAccess)
    case AskAccess =>
      Resolve(ph, ProviderGrants(sh, ph.id, target), true, ByProvider(target in sh.provider))
  }

  function After(sh: Shared, ph: Phase, m: Move): Phase
    requires May(ph, m)
  {
    match m
    case BeginSettle(doc, goal) => Settling(doc, goal)
    case ReadOwed =>
      if ph.doc in sh.records then Checking(ph.doc, sh.records[ph.doc], ph.goal)
      else if ph.goal == Forward then Forwarding(ph.doc, false) else Finished
    case CheckProvider =>
      if ph.doc in sh.provider then Clearing(ph.doc, ph.who, ph.goal) else Registering(ph.doc, ph.who, ph.goal)
    case RegisterAtProvider(replyLost) =>
      if replyLost then Finished else Clearing(ph.doc, ph.who, ph.goal)
    case OpenClear =>
      if RecordOf(sh, ph.doc) == Some(ph.who) then Deleting(ph.doc, ph.who, ph.goal, sh.commits)
      else SettleDone(ph.doc, ph.goal)
    case CommitClear => SettleDone(ph.doc, ph.goal)
    case ForwardCall => Finished
    case BeginRead(asked, collection, id, branchable) =>
      if asked.Some? then Reading(asked.value, collection, id, branchable, false, OwedFirst)
      else if branchable then Reading(collection, collection, id, true, true, OwedFirst)
      else Answered(collection, id, true, true, Unchecked)
    case ReadStep => ReadOnce(sh, ph)
    case Crash => Idle
  }

  function PhaseOf(s: State, p: Pid): Phase
  {
    if p in s.procs then s.procs[p] else Idle
  }

  predicate Next(s: State, a: Action, s': State)
  {
    match a
    case ByWorld(w) => WorldMay(s.sh, w) && s' == State(WorldEffect(s.sh, w), s.procs)
    case ByProcess(p, m) =>
      var ph := PhaseOf(s, p);
      May(ph, m) && s' == State(Effect(s.sh, ph, m), s.procs[p := After(s.sh, ph, m)])
  }

  predicate Init(s: State)
  {
    s.sh.live == map[] && s.sh.records == map[] && s.sh.changed == map[] && s.procs == map[]
  }

  // ----- What every step keeps -----

  // A live document created with an identity is owed or registered.
  predicate Guarded(sh: Shared, doc: Doc)
  {
    doc in sh.live && sh.live[doc].Some? ==> doc in sh.records || doc in sh.provider
  }

  // An owed record names the creator of the live document it belongs to.
  predicate RecordIsCreators(sh: Shared, doc: Doc)
  {
    doc in sh.records ==> doc in sh.live && sh.live[doc] == Some(sh.records[doc])
  }

  predicate SharedInv(sh: Shared, doc: Doc)
  {
    RecordIsCreators(sh, doc) && Guarded(sh, doc) && Stamp(sh, doc) <= sh.commits
  }

  predicate PhaseInv(sh: Shared, doc: Doc, ph: Phase)
  {
    match ph
    case Clearing(d, _, _) => d == doc ==> doc in sh.provider
    case Deleting(d, who, _, at) =>
      d == doc ==>
        && doc in sh.provider && at <= sh.commits
        && (Stamp(sh, doc) <= at ==> RecordOf(sh, doc) == Some(who))
    case Forwarding(d, settled) => d == doc && settled ==> doc in sh.provider
    case _ => true
  }

  // The provider keeps `doc`, and a record that changed bears a later stamp.
  predicate Later(sh: Shared, sh': Shared, doc: Doc)
  {
    && sh.commits <= sh'.commits
    && (doc in sh.provider ==> doc in sh'.provider)
    && (Stamp(sh', doc) > sh.commits || (Stamp(sh', doc) == Stamp(sh, doc) && RecordOf(sh', doc) == RecordOf(sh, doc)))
  }

  lemma SetRecordIsLater(sh: Shared, d: Doc, record: Option<Bytes>, doc: Doc)
    requires Stamp(sh, doc) <= sh.commits
    ensures var sh' := SetRecord(sh, d, record);
            && Later(sh, sh', doc) && Stamp(sh', doc) <= sh'.commits
            && RecordOf(sh', doc) == (if d == doc then record else RecordOf(sh, doc))
            && sh'.live == sh.live && sh'.provider == sh.provider
  {
  }

  lemma WorldKeeps(sh: Shared, w: World, doc: Doc)
    requires SharedInv(sh, doc) && WorldMay(sh, w) && w != ProviderForget(doc)
    ensures SharedInv(WorldEffect(sh, w), doc) && Later(sh, WorldEffect(sh, w), doc)
  {
    match w
    case Create(d, creator) => SetRecordIsLater(sh.(live := sh.live[d := creator]), d, creator, doc);
    case Delete(d) => SetRecordIsLater(sh.(live := sh.live - {d}), d, None, doc);
    case _ =>
  }

  lemma MoveKeeps(sh: Shared, ph: Phase, m: Move, doc: Doc)
    requires SharedInv(sh, doc) && PhaseInv(sh, doc, ph) && May(ph, m)
    ensures SharedInv(Effect(sh, ph, m), doc) && Later(sh, Effect(sh, ph, m), doc)
    ensures PhaseInv(Effect(sh, ph, m), doc, After(sh, ph, m))
  {
    if m.CommitClear? {
      SetRecordIsLater(sh, ph.doc, None, doc);
    }
  }

  lemma PhaseLater(sh: Shared, sh': Shared, doc: Doc, ph: Phase)
    requires Later(sh, sh', doc) && PhaseInv(sh, doc, ph)
    ensures PhaseInv(sh', doc, ph)
  {
  }

  ghost predicate Inv(s: State, doc: Doc)
  {
    SharedInv(s.sh, doc) && forall p :: PhaseInv(s.sh, doc, PhaseOf(s, p))
  }

  lemma InvStep(s: State, a: Action, s': State, doc: Doc)
    requires Inv(s, doc) && Next(s, a, s') && a != ByWorld(ProviderForget(doc))
    ensures Inv(s', doc) && Later(s.sh, s'.sh, doc)
  {
    match a {
      case ByWorld(w) => WorldKeeps(s.sh, w, doc);
      case ByProcess(p, m) => MoveKeeps(s.sh, PhaseOf(s, p), m, doc);
    }
    forall q ensures PhaseInv(s'.sh, doc, PhaseOf(s', q)) {
      if PhaseOf(s', q) == PhaseOf(s, q) { PhaseLater(s.sh, s'.sh, doc, PhaseOf(s, q)); }
    }
  }

  // ----- Runs -----

  datatype Run = Run(states: seq<State>, acts: seq<Action>)

  ghost predicate StepAt(r: Run, i: nat)
  {
    i < |r.acts| && i + 1 < |r.states| && Next(r.states[i], r.acts[i], r.states[i + 1])
  }

  ghost predicate ValidRun(r: Run)
  {
    && |r.states| == |r.acts| + 1
    && Init(r.states[0])
    && forall i :: 0 <= i < |r.acts| ==> StepAt(r, i)
  }

  // The provider keeps `doc` through the first `j` steps.
  ghost predicate Keeps(r: Run, doc: Doc, j: nat)
  {
    forall i :: 0 <= i < j && i < |r.acts| ==> r.acts[i] != ByWorld(ProviderForget(doc))
  }

  lemma {:induction false} InvHolds(r: Run, doc: Doc, j: nat)
    requires ValidRun(r) && j < |r.states| && Keeps(r, doc, j)
    ensures Inv(r.states[j], doc)
  {
    if j > 0 {
      InvHolds(r, doc, j - 1);
      assert StepAt(r, j - 1);
      InvStep(r.states[j - 1], r.acts[j - 1], r.states[j], doc);
    }
  }

  // In every run with any number of creators, settlers, deleters, re-creators
  // and crashes: each live document created with an identity has its owed
  // record, naming that identity, or is registered at the provider.
  lemma EveryLiveDocumentIsGuarded(r: Run, doc: Doc, j: nat)
    requires ValidRun(r) && j < |r.states| && Keeps(r, doc, j)
    ensures Guarded(r.states[j].sh, doc) && RecordIsCreators(r.states[j].sh, doc)
  {
    InvHolds(r, doc, j);
  }

  // That the provider keeps objects is needed: settled, then forgotten, a live
  // document is neither owed nor registered.
  lemma ForgettingBreaksTheGuard(sh: Shared, doc: Doc, creator: Bytes) returns (r: Run)
    requires sh.live == map[] && sh.records == map[] && sh.changed == map[] && doc !in sh.provider
    ensures ValidRun(r) && r.states[0] == State(sh, map[]) && !Keeps(r, doc, |r.acts|)
    ensures !Guarded(r.states[|r.acts|].sh, doc)
  {
    var owed := sh.(live := sh.live[doc := Some(creator)], records := sh.records[doc := creator],
                    changed := sh.changed[doc := sh.commits + 1], commits := sh.commits + 1);
    var registered := owed.(provider := owed.provider[doc := creator]);
    var none: map<Pid, Phase> := map[];
    r := Run([State(sh, none)], []);
    r := Grow(r, ByWorld(Create(doc, Some(creator))), State(owed, none));
    r := Settle(r, owed, registered, doc, creator);
    var cleared := SetRecord(registered, doc, None);
    var forgotten := cleared.(provider := cleared.provider - {doc});
    r := Grow(r, ByWorld(ProviderForget(doc)), State(forgotten, map[0 := Finished]));
    assert r.acts[|r.acts| - 1] == ByWorld(ProviderForget(doc));
  }

  lemma Settle(r: Run, owed: Shared, registered: Shared, doc: Doc, creator: Bytes) returns (r': Run)
    requires ValidRun(r) && r.states[|r.acts|] == State(owed, map[])
    requires RecordOf(owed, doc) == Some(creator) && doc !in owed.provider && Stamp(owed, doc) <= owed.commits
    requires registered == owed.(provider := owed.provider[doc := creator])
    ensures ValidRun(r') && r'.states[|r'.acts|] == State(SetRecord(registered, doc, None), map[0 := Finished])
    ensures r'.states[0] == r.states[0]
  {
    r' := Grow(r, ByProcess(0, BeginSettle(doc, Redrive)), State(owed, map[0 := Settling(doc, Redrive)]));
    r' := Grow(r', ByProcess(0, ReadOwed), State(owed, map[0 := Checking(doc, creator, Redrive)]));
    r' := Grow(r', ByProcess(0, CheckProvider), State(owed, map[0 := Registering(doc, creator, Redrive)]));
    r' := Grow(r', ByProcess(0, RegisterAtProvider(false)), State(registered, map[0 := Clearing(doc, creator, Redrive)]));
    r' := Grow(r', ByProcess(0, OpenClear), State(registered, map[0 := Deleting(doc, creator, Redrive, owed.commits)]));
    r' := Grow(r', ByProcess(0, CommitClear), State(SetRecord(registered, doc, None), map[0 := Finished]));
  }

  lemma Grow(r: Run, a: Action, s: State) returns (r': Run)
    requires ValidRun(r) && Next(r.states[|r.acts|], a, s)
    ensures ValidRun(r') && r' == Run(r.states + [s], r.acts + [a])
  {
    r' := Run(r.states + [s], r.acts + [a]);
    forall i | 0 <= i < |r'.acts| ensures StepAt(r', i) {
      if i < |r.acts| { assert StepAt(r, i); }
    }
  }

  // A record leaves, or changes, only with the transaction that deletes its
  // document, or by a clear of exactly that record once the provider holds the
  // document. A stale settler never clears another creator's record.
  lemma RecordsLeaveOnlyByDeleteOrSettledClear(r: Run, doc: Doc, j: nat)
    requires ValidRun(r) && j < |r.acts| && Keeps(r, doc, j)
    requires doc in r.states[j].sh.records
    requires RecordOf(r.states[j + 1].sh, doc) != RecordOf(r.states[j].sh, doc)
    ensures doc !in r.states[j + 1].sh.records
    ensures || (r.acts[j] == ByWorld(Delete(doc)) && doc !in r.states[j + 1].sh.live)
            || (&& r.acts[j].ByProcess? && r.acts[j].move.CommitClear?
                && var ph := PhaseOf(r.states[j], r.acts[j].pid);
                && ph.Deleting? && ph.doc == doc && ph.who == r.states[j].sh.records[doc]
                && doc in r.states[j].sh.provider && doc in r.states[j + 1].sh.live)
  {
    InvHolds(r, doc, j);
    var s, a, s' := r.states[j], r.acts[j], r.states[j + 1];
    assert StepAt(r, j);
    match a
    case ByWorld(w) => RecordChangedByWorld(s.sh, w, doc);
    case ByProcess(p, m) => assert PhaseInv(s.sh, doc, PhaseOf(s, p));
  }

  lemma RecordChangedByWorld(sh: Shared, w: World, doc: Doc)
    requires SharedInv(sh, doc) && WorldMay(sh, w) && doc in sh.records
    requires RecordOf(WorldEffect(sh, w), doc) != RecordOf(sh, doc)
    ensures w == Delete(doc) && doc !in WorldEffect(sh, w).records && doc !in WorldEffect(sh, w).live
  {
  }

  // ----- Reading through the gate -----

  // The document is live and was created with an identity.
  predicate Protected(sh: Shared, doc: Doc)
  {
    doc in sh.live && sh.live[doc].Some?
  }

  // `p`'s check of `doc` began at step `b` and has not been dropped by state `j`;
  // the document stayed protected throughout.
  ghost predicate Checks(r: Run, p: Pid, b: nat, j: nat, doc: Doc, id: Identity)
    requires ValidRun(r)
  {
    && b < j < |r.states| && r.acts[b].ByProcess? && r.acts[b].pid == p
    && r.acts[b].move.BeginRead? && r.acts[b].move.asked == Some(doc) && r.acts[b].move.id == id
    && (forall i :: b <= i <= j ==> Protected(r.states[i].sh, doc))
    && (forall i :: b <= i < j && i < |r.acts| ==> r.acts[i] != ByProcess(p, Crash))
  }

  // Such a check is still reading, on the document itself, or has answered from
  // the record or from the provider's word on a registered object.
  predicate Gated(sh: Shared, ph: Phase, doc: Doc, id: Identity, creator: Bytes)
  {
    match ph
    case Reading(d, _, i, _, onCollection, stage) =>
      && d == doc && i == id && !onCollection
      && (stage == AskRegistered || stage == AskAccess ==> doc in sh.provider)
    case Answered(d, i, granted, onCollection, basis) =>
      && d == doc && i == id && !onCollection
      && ((basis == ByRecord(creator) && (granted <==> id == Authenticated(creator))) || basis == ByProvider(true))
    case _ => false
  }

  // For a live document whose create committed before the check began and that
  // is not deleted during it, the read rule never takes the "unregistered,
  // hence public" path and never falls back to the collection's grant, under
  // any interleaving with settlers. A true answer means that the reader is the
  // recorded creator or that the provider granted a registered object.
  lemma {:induction false} ReadsAreGated(r: Run, p: Pid, b: nat, j: nat, doc: Doc, id: Identity)
    requires ValidRun(r) && Checks(r, p, b, j, doc, id) && Keeps(r, doc, j)
    ensures Gated(r.states[j].sh, PhaseOf(r.states[j], p), doc, id, r.states[b].sh.live[doc].value)
    ensures r.states[j].sh.live[doc] == r.states[b].sh.live[doc]
  {
    if j == b + 1 {
      assert StepAt(r, b);
      GateBegins(r.states[b], r.acts[b], r.states[j], p, doc, id);
    } else {
      ReadsAreGated(r, p, b, j - 1, doc, id);
      InvHolds(r, doc, j - 1);
      assert StepAt(r, j - 1);
      GatedStep(r.states[j - 1], r.acts[j - 1], r.states[j], p, doc, id, r.states[b].sh.live[doc].value);
    }
  }

  lemma GateBegins(s: State, a: Action, s': State, p: Pid, doc: Doc, id: Identity)
    requires Next(s, a, s') && a.ByProcess? && a.pid == p && a.move.BeginRead? && a.move.asked == Some(doc) && a.move.id == id
    requires Protected(s.sh, doc)
    ensures Gated(s'.sh, PhaseOf(s', p), doc, id, s.sh.live[doc].value) && s'.sh.live == s.sh.live
  {
  }

  lemma GatedStep(s: State, a: Action, s': State, p: Pid, doc: Doc, id: Identity, creator: Bytes)
    requires Inv(s, doc) && Next(s, a, s') && a != ByProcess(p, Crash) && a != ByWorld(ProviderForget(doc))
    requires Protected(s.sh, doc) && Protected(s'.sh, doc) && s.sh.live[doc] == Some(creator)
    requires Gated(s.sh, PhaseOf(s, p), doc, id, creator)
    ensures Gated(s'.sh, PhaseOf(s', p), doc, id, creator) && s'.sh.live[doc] == s.sh.live[doc]
  {
    InvStep(s, a, s', doc);
    LiveKept(s, a, s', doc);
    if a.ByProcess? && a.pid == p {
      assert a.move == ReadStep;
      GatedRead(s.sh, PhaseOf(s, p), doc, id, creator);
    } else {
      assert PhaseOf(s', p) == PhaseOf(s, p);
    }
  }

  // A document live before and after a step was not re-created by it.
  lemma LiveKept(s: State, a: Action, s': State, doc: Doc)
    requires Next(s, a, s') && doc in s.sh.live && doc in s'.sh.live
    ensures s'.sh.live[doc] == s.sh.live[doc]
  {
    match a
    case ByWorld(w) => WorldKeepsLive(s.sh, w, doc);
    case ByProcess(p, m) =>
  }

  lemma WorldKeepsLive(sh: Shared, w: World, doc: Doc)
    requires WorldMay(sh, w) && doc in sh.live && doc in WorldEffect(sh, w).live
    ensures WorldEffect(sh, w).live[doc] == sh.live[doc]
  {
  }

  lemma GatedRead(sh: Shared, ph: Phase, doc: Doc, id: Identity, creator: Bytes)
    requires SharedInv(sh, doc) && Protected(sh, doc) && sh.live[doc] == Some(creator)
    requires ph.Reading? && Gated(sh, ph, doc, id, creator)
    ensures Gated(sh, ReadOnce(sh, ph), doc, id, creator)
  {
  }

  // The provider's part of such an answer is its grant on the registered object
  // at one instant inside the check, that of the read that answered.
  lemma {:induction false} ProviderAnswersAreItsGrants(r: Run, p: Pid, b: nat, j: nat, doc: Doc, id: Identity, granted: bool)
    returns (i: nat)
    requires ValidRun(r) && Checks(r, p, b, j, doc, id)
    requires PhaseOf(r.states[j], p) == Answered(doc, id, granted, false, ByProvider(true))
    ensures b < i < j && r.acts[i] == ByProcess(p, ReadStep)
    ensures doc in r.states[i].sh.provider && (granted <==> ProviderGrants(r.states[i].sh, id, doc))
  {
    var s, a := r.states[j - 1], r.acts[j - 1];
    assert StepAt(r, j - 1);
    if a.ByProcess? && a.pid == p {
      assert j > b + 1;
      i := j - 1;
    } else {
      assert PhaseOf(r.states[j], p) == PhaseOf(s, p);
      i := ProviderAnswersAreItsGrants(r, p, b, j - 1, doc, id, granted);
    }
  }

  // While the record stays owed, exactly the creator reads.
  lemma {:induction false} OwedMeansCreatorOnly(r: Run, p: Pid, b: nat, j: nat, doc: Doc, id: Identity)
    requires ValidRun(r) && Checks(r, p, b, j, doc, id) && Keeps(r, doc, j)
    requires forall i :: b <= i <= j ==> doc in r.states[i].sh.records
    ensures AnswersFromRecord(PhaseOf(r.states[j], p), id, r.states[b].sh.live[doc].value)
  {
    if j == b + 1 {
      assert StepAt(r, b);
    } else {
      OwedMeansCreatorOnly(r, p, b, j - 1, doc, id);
      ReadsAreGated(r, p, b, j - 1, doc, id);
      InvHolds(r, doc, j - 1);
      var s, a, s' := r.states[j - 1], r.acts[j - 1], r.states[j];
      assert StepAt(r, j - 1) && doc in s.sh.records;
      if !(a.ByProcess? && a.pid == p) {
        assert PhaseOf(s', p) == PhaseOf(s, p);
      }
    }
  }

  predicate AnswersFromRecord(ph: Phase, id: Identity, creator: Bytes)
  {
    match ph
    case Reading(_, _, _, _, _, stage) => stage == OwedFirst || stage == OwedAgain
    case Answered(_, _, granted, _, basis) => basis == ByRecord(creator) && (granted <==> id == Authenticated(creator))
    case _ => false
  }

  // ----- Forwarded calls -----

  // `p`'s forwarded call for `doc` began at step `b`, undropped up to `j`.
  ghost predicate Forwards(r: Run, p: Pid, b: nat, j: nat, doc: Doc)
    requires ValidRun(r)
  {
    && b < j < |r.states| && r.acts[b] == ByProcess(p, BeginSettle(doc, Forward))
    && (forall i :: b <= i < j && i < |r.acts| ==> r.acts[i] != ByProcess(p, Crash))
  }

  // Its read of the record, at step `i`, found none.
  ghost predicate SawNone(r: Run, p: Pid, i: nat, doc: Doc)
    requires ValidRun(r)
  {
    i < |r.acts| && r.acts[i] == ByProcess(p, ReadOwed) && doc !in r.states[i].sh.records
  }

  ghost predicate SawNoRecord(r: Run, p: Pid, b: nat, j: nat, doc: Doc)
    requires ValidRun(r)
  {
    exists i :: b <= i < j && SawNone(r, p, i, doc)
  }

  predicate OnCourse(ph: Phase, doc: Doc, sawNone: bool)
  {
    match ph
    case Settling(d, goal) => d == doc && goal == Forward
    case Checking(d, _, goal) => d == doc && goal == Forward
    case Registering(d, _, goal) => d == doc && goal == Forward
    case Clearing(d, _, goal) => d == doc && goal == Forward
    case Deleting(d, _, goal, _) => d == doc && goal == Forward
    case Forwarding(d, settled) => d == doc && (settled || sawNone)
    case Finished => true
    case _ => false
  }

  // Throughout a forwarded call the process works on that document, and comes
  // to forward unsettled only from a read that found no record.
  lemma {:induction false} StaysOnCourse(r: Run, p: Pid, b: nat, j: nat, doc: Doc)
    requires ValidRun(r) && Forwards(r, p, b, j, doc)
    ensures OnCourse(PhaseOf(r.states[j], p), doc, SawNoRecord(r, p, b, j, doc))
  {
    if j == b + 1 {
      assert StepAt(r, b);
    } else {
      StaysOnCourse(r, p, b, j - 1, doc);
      var s, a, s' := r.states[j - 1], r.acts[j - 1], r.states[j];
      assert StepAt(r, j - 1);
      if a.ByProcess? && a.pid == p {
        assert a.move.ReadOwed? && doc !in s.sh.records ==> SawNone(r, p, j - 1, doc);
      } else {
        assert PhaseOf(s', p) == PhaseOf(s, p);
      }
    }
  }

  // Every relationship change or access decision that reaches the provider
  // reaches it when no record was owed at the preceding read, or after the
  // provider holds the document's registration.
  lemma ForwardedAfterRegistration(r: Run, p: Pid, b: nat, j: nat, doc: Doc)
    requires ValidRun(r) && Forwards(r, p, b, j, doc) && Keeps(r, doc, j)
    requires PhaseOf(r.states[j], p).Forwarding?
    ensures PhaseOf(r.states[j], p).doc == doc
    ensures SawNoRecord(r, p, b, j, doc) || doc in r.states[j].sh.provider
  {
    StaysOnCourse(r, p, b, j, doc);
    InvHolds(r, doc, j);
    assert PhaseInv(r.states[j].sh, doc, PhaseOf(r.states[j], p));
  }

  // And if the document was live with an identity all along, the provider holds
  // its registration either way.
  lemma ProtectedCallsReachARegisteredObject(r: Run, p: Pid, b: nat, j: nat, doc: Doc)
    requires ValidRun(r) && Forwards(r, p, b, j, doc) && Keeps(r, doc, j)
    requires PhaseOf(r.states[j], p).Forwarding?
    requires forall i :: b <= i <= j ==> Protected(r.states[i].sh, doc)
    ensures doc in r.states[j].sh.provider
  {
    ForwardedAfterRegistration(r, p, b, j, doc);
    if SawNoRecord(r, p, b, j, doc) {
      var i :| b <= i < j && SawNone(r, p, i, doc);
      InvHolds(r, doc, i);
      ProviderKeeps(r, doc, i, j);
    }
  }

  lemma {:induction false} ProviderKeeps(r: Run, doc: Doc, i: nat, j: nat)
    requires ValidRun(r) && i <= j < |r.states| && Keeps(r, doc, j) && doc in r.states[i].sh.provider
    ensures doc in r.states[j].sh.provider
  {
    if i < j {
      ProviderKeeps(r, doc, i, j - 1);
      InvHolds(r, doc, j - 1);
      assert StepAt(r, j - 1);
      InvStep(r.states[j - 1], r.acts[j - 1], r.states[j], doc);
    }
  }
}
