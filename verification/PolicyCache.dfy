// The shared policy snapshot (crates/acp/src/policy_cache.rs) and the fetches
// that fill it (crates/acp/src/zanzibar/acp/mod.rs): one cell holding an
// immutable table, replaced by compare-and-swap on the table's identity, which
// is separate from its content. Every installed table has an identity of its
// own; a replaced one never comes back.

module PolicyCache {
  import opened Options
  import opened Text

  type Pid = nat
  type Id = Bytes
  type Policy = Bytes
  type Policies = map<Id, Policy>

  datatype TableEdit = Remove(id: Id) | Clear | Add(id: Id, policy: Policy)

  function Edited(t: Policies, e: TableEdit): Policies
  {
    match e
    case Remove(id) => t - {id}
    case Clear => map[]
    case Add(id, policy) => t[id := policy]
  }

  // ----- Any number of callers -----

  datatype Table = Table(ident: nat, content: Policies)

  // `ensure_policy` adds a missing policy, from the committed ones;
  // `reload_policy` replaces one, as its own store shows it, which inside a
  // transaction may be a policy nobody committed (`ReadView`).
  datatype Kind = Ensure | Reload

  datatype Phase =
    | Idle
    | Fetching(id: Id, kind: Kind)
    | Snapped(id: Id, kind: Kind, before: Table)
    | Fetched(id: Id, kind: Kind, before: Table, policy: Option<Policy>)
    | Matched(id: Id, kind: Kind, before: Table, policy: Option<Policy>)
    | Changing(id: Id, to: Option<Policy>)
    | Editing(edit: TableEdit, owed: bool)
    | Loaded(edit: TableEdit, owed: bool, from: Table)
    | Abandoned(id: Id)
    | Finished

  datatype State = State(committed: Policies, current: Table, procs: map<Pid, Phase>)

  datatype Move =
    | BeginFetch(id: Id, kind: Kind)
    | Snapshot
    | ReadCommitted
    | ReadView(policy: Option<Policy>)
    | Compare
    | Swap
    | BeginChange(id: Id, to: Option<Policy>)
    | CommitChange
    | BeginEdit(edit: TableEdit)
    | Load
    | Crash
    | Forget

  datatype Action = Action(pid: Pid, move: Move)

  function PhaseOf(s: State, p: Pid): Phase
  {
    if p in s.procs then s.procs[p] else Idle
  }

  function Get(t: Policies, id: Id): Option<Policy>
  {
    if id in t then Some(t[id]) else None
  }

  function Put(t: Policies, id: Id, policy: Option<Policy>): Policies
  {
    if policy.Some? then t[id := policy.value] else t - {id}
  }

  predicate May(ph: Phase, m: Move)
  {
    match m
    case BeginFetch(_, _) => ph.Idle?
    case Snapshot => ph.Fetching?
    case ReadCommitted => ph.Snapped?
    case ReadView(_) => ph.Snapped? && ph.kind == Reload
    case Compare => ph.Fetched?
    case Swap => ph.Matched? || ph.Loaded?
    case BeginChange(_, _) => ph.Idle?
    case CommitChange => ph.Changing?
    case BeginEdit(_) => ph.Idle?
    case Load => ph.Editing?
    case Crash => !ph.Abandoned?
    case Forget => ph.Finished?
  }

  // The table a swap expects to replace, and the content it installs.
  function Expected(ph: Phase): Table
    requires ph.Matched? || ph.Loaded?
  {
    if ph.Matched? then ph.before else ph.from
  }

  function Proposed(ph: Phase): Policies
    requires ph.Matched? || ph.Loaded?
  {
    if ph.Matched? then Put(ph.before.content, ph.id, ph.policy) else Edited(ph.from.content, ph.edit)
  }

  predicate Installs(current: Table, ph: Phase, m: Move)
  {
    m.Swap? && (ph.Matched? || ph.Loaded?) && Expected(ph).ident == current.ident
  }

  function After(s: State, ph: Phase, m: Move): Phase
    requires May(ph, m)
  {
    match m
    case BeginFetch(id, kind) => Fetching(id, kind)
    case Snapshot =>
      if ph.kind == Ensure && ph.id in s.current.content then Finished else Snapped(ph.id, ph.kind, s.current)
    case ReadCommitted =>
      var policy := Get(s.committed, ph.id);
      if ph.kind == Ensure && policy.None? then Finished else Fetched(ph.id, ph.kind, ph.before, policy)
    case ReadView(policy) => Fetched(ph.id, ph.kind, ph.before, policy)
    case Compare =>
      if ph.before.ident == s.current.ident then Matched(ph.id, ph.kind, ph.before, ph.policy)
      else Fetching(ph.id, ph.kind)
    case Swap =>
      if Installs(s.current, ph, m) then Finished
      else if ph.Matched? then Fetching(ph.id, ph.kind) else Editing(ph.edit, ph.owed)
    case BeginChange(id, to) => Changing(id, to)
    case CommitChange => Editing(Remove(ph.id), true)
    case BeginEdit(e) => Editing(e, false)
    case Load => Loaded(ph.edit, ph.owed, s.current)
    case Crash => if Owes(ph) then Abandoned(ph.edit.id) else Idle
    case Forget => Idle
  }

  predicate Next(s: State, a: Action, s': State)
  {
    var ph := PhaseOf(s, a.pid);
    && May(ph, a.move)
    && s'.procs == s.procs[a.pid := After(s, ph, a.move)]
    && s'.committed == (if a.move.CommitChange? then Put(s.committed, ph.id, ph.to) else s.committed)
    && s'.current == (if Installs(s.current, ph, a.move) then Table(s.current.ident + 1, Proposed(ph)) else s.current)
  }

  // ----- The cell itself -----

  // A table is compared by reference, as `Arc::ptr_eq` does.
  class PolicyTable {
    const policies: Policies

    constructor (policies: Policies)
      ensures this.policies == policies
    {
      this.policies := policies;
    }
  }

  // The cell and the tables it has held, in turn. A table's place among them is
  // the identity it has in the steps above, and each method takes one of those
  // steps.
  class Cache {
    var current: PolicyTable
    ghost var installed: seq<PolicyTable>

    ghost predicate Valid()
      reads this
    {
      && installed != [] && current == installed[|installed| - 1]
      && forall i, j :: 0 <= i < j < |installed| ==> installed[i] != installed[j]
    }

    ghost function TableOf(t: PolicyTable): Table
      requires t in installed
      reads this
    {
      var i: nat :| i < |installed| && installed[i] == t;
      Table(i, t.policies)
    }

    // Tables held so far keep their identities.
    twostate predicate Keeps()
      reads this
    {
      forall t :: t in old(installed) ==> t in installed && TableOf(t) == old(TableOf(t))
    }

    constructor ()
      ensures Valid() && TableOf(current) == Table(0, map[])
    {
      current := new PolicyTable(map[]);
      installed := [current];
    }

    method Snapshot() returns (table: PolicyTable)
      requires Valid()
      ensures table in installed && TableOf(table) == TableOf(current)
    {
      table := current;
    }

    method PublishIfCurrent(expected: PolicyTable, next: PolicyTable) returns (published: bool)
      requires Valid() && expected in installed && next !in installed
      modifies this
      ensures Valid() && Keeps()
      ensures published <==> old(TableOf(expected)).ident == old(TableOf(current)).ident
      ensures TableOf(current) == if published then Table(old(TableOf(current)).ident + 1, next.policies)
                                  else old(TableOf(current))
    {
      if current != expected { return false; }
      current := next;
      installed := installed + [next];
      return true;
    }

    // `rcu`: a copy of the current table, edited, takes its place.
    method Edit(e: TableEdit, ghost owed: bool)
      requires Valid()
      modifies this
      ensures Valid() && Keeps()
      ensures var ph := Loaded(e, owed, old(TableOf(current)));
              && Installs(old(TableOf(current)), ph, Swap)
              && TableOf(current) == Table(old(TableOf(current)).ident + 1, Proposed(ph))
      ensures forall x :: Get(current.policies, x) == Leaves(e, x, Get(old(current.policies), x))
    {
      var next := new PolicyTable(Edited(current.policies, e));
      var published := PublishIfCurrent(current, next);
    }

    // The last part of `ensure_policy` and `reload_policy`: a copy of the table
    // snapped before, with what was fetched, published if that is still current.
    method Publish(id: Id, ghost kind: Kind, before: PolicyTable, policy: Option<Policy>) returns (published: bool)
      requires Valid() && before in installed
      modifies this
      ensures Valid() && Keeps()
      ensures var ph := Matched(id, kind, old(TableOf(before)), policy);
              && (published <==> Installs(old(TableOf(current)), ph, Swap))
              && TableOf(current) == if published then Table(old(TableOf(current)).ident + 1, Proposed(ph))
                                     else old(TableOf(current))
    {
      var next := new PolicyTable(Put(before.policies, id, policy));
      published := PublishIfCurrent(before, next);
    }
  }

  // A change whose commit landed and whose invalidating edit has not.
  predicate Owes(ph: Phase)
  {
    (ph.Editing? || ph.Loaded?) && ph.owed && ph.edit.Remove?
  }

  predicate OwesFor(ph: Phase, id: Id)
  {
    (Owes(ph) && ph.edit.id == id) || ph == Abandoned(id)
  }

  ghost predicate Invalidating(s: State, id: Id)
  {
    exists p :: OwesFor(PhaseOf(s, p), id)
  }

  // ----- What every step keeps -----

  predicate Holds(ph: Phase, t: Table)
  {
    match ph
    case Snapped(_, _, before) => t == before
    case Fetched(_, _, before, _) => t == before
    case Matched(_, _, before, _) => t == before
    case Loaded(_, _, from) => t == from
    case _ => false
  }

  // A table held since earlier is older than the current one, or is it.
  predicate Old(current: Table, t: Table)
  {
    t.ident <= current.ident && (t.ident == current.ident ==> t.content == current.content)
  }

  predicate Brought(ph: Phase, id: Id, policy: Policy, ident: nat)
  {
    (ph.Fetched? || ph.Matched?) && ph.id == id && ph.policy == Some(policy) && ph.before.ident == ident
  }

  predicate Agrees(committed: Policies, id: Id, policy: Policy)
  {
    Get(committed, id) == Some(policy)
  }

  // Production edits only ever remove.
  predicate Removes(ph: Phase)
  {
    (ph.Editing? || ph.Loaded?) ==> !ph.edit.Add?
  }

  // A cached policy, and one fetched for the current table, is the committed
  // one unless its invalidation is still to come.
  ghost predicate Coherent(s: State, id: Id)
  {
    && (id in s.current.content ==> Agrees(s.committed, id, s.current.content[id]) || Invalidating(s, id))
    && (forall p, v :: Brought(PhaseOf(s, p), id, v, s.current.ident) ==> Agrees(s.committed, id, v) || Invalidating(s, id))
  }

  ghost predicate TablesInv(s: State)
  {
    forall p, t :: Holds(PhaseOf(s, p), t) ==> Old(s.current, t)
  }

  ghost predicate Inv(s: State, id: Id)
  {
    TablesInv(s) && Coherent(s, id) && forall p :: Removes(PhaseOf(s, p))
  }

  lemma TablesStep(s: State, a: Action, s': State)
    requires TablesInv(s) && Next(s, a, s')
    ensures TablesInv(s') && s.current.ident <= s'.current.ident
  {
    forall p, t | Holds(PhaseOf(s', p), t) ensures Old(s'.current, t) {
      if p != a.pid { assert PhaseOf(s', p) == PhaseOf(s, p); }
      if Holds(PhaseOf(s, p), t) { assert Old(s.current, t); }
    }
  }

  // Invalidation of `id` goes on unless this step is the edit that ends it.
  lemma StillInvalidating(s: State, a: Action, s': State, id: Id)
    requires Next(s, a, s') && Invalidating(s, id)
    requires !(Installs(s.current, PhaseOf(s, a.pid), a.move) && OwesFor(PhaseOf(s, a.pid), id))
    ensures Invalidating(s', id)
  {
    var p :| OwesFor(PhaseOf(s, p), id);
    if p != a.pid { assert PhaseOf(s', p) == PhaseOf(s, p); }
    assert OwesFor(PhaseOf(s', p), id);
  }

  lemma HeldIsOld(s: State, p: Pid, t: Table)
    requires TablesInv(s) && Holds(PhaseOf(s, p), t)
    ensures Old(s.current, t)
  {
  }

  // Edits remove, and what a view shows is committed.
  predicate Honest(s: State, a: Action)
  {
    && (a.move.BeginEdit? ==> !a.move.edit.Add?)
    && (a.move.ReadView? && PhaseOf(s, a.pid).Snapped? ==> a.move.policy == Get(s.committed, PhaseOf(s, a.pid).id))
  }

  lemma CoherentStep(s: State, a: Action, s': State, id: Id)
    requires Inv(s, id) && Next(s, a, s') && Honest(s, a)
    ensures Coherent(s', id)
  {
    var ph := PhaseOf(s, a.pid);
    if a.move.CommitChange? && ph.id == id {
      assert OwesFor(PhaseOf(s', a.pid), id);
    } else if Installs(s.current, ph, a.move) {
      if id in s'.current.content { InstallIsCoherent(s, a, s', id); }
      forall p, v ensures !Brought(PhaseOf(s', p), id, v, s'.current.ident) {
        if p != a.pid {
          assert PhaseOf(s', p) == PhaseOf(s, p);
          if PhaseOf(s, p).Fetched? || PhaseOf(s, p).Matched? { HeldIsOld(s, p, PhaseOf(s, p).before); }
        }
      }
    } else {
      if Invalidating(s, id) { StillInvalidating(s, a, s', id); }
      assert Get(s'.committed, id) == Get(s.committed, id);
      forall p, v | Brought(PhaseOf(s', p), id, v, s'.current.ident)
        ensures Agrees(s'.committed, id, v) || Invalidating(s', id)
      {
        BroughtBefore(s, a, s', id, p, v);
        if Brought(PhaseOf(s, p), id, v, s.current.ident) { BroughtIsCoherent(s, id, p, v); }
      }
    }
  }

  lemma BroughtIsCoherent(s: State, id: Id, p: Pid, v: Policy)
    requires Coherent(s, id) && Brought(PhaseOf(s, p), id, v, s.current.ident)
    ensures Agrees(s.committed, id, v) || Invalidating(s, id)
  {
  }

  lemma BroughtBefore(s: State, a: Action, s': State, id: Id, p: Pid, v: Policy)
    requires Next(s, a, s') && Honest(s, a) && s'.current == s.current && Brought(PhaseOf(s', p), id, v, s.current.ident)
    ensures Brought(PhaseOf(s, p), id, v, s.current.ident) || Agrees(s.committed, id, v)
  {
    if p != a.pid { assert PhaseOf(s', p) == PhaseOf(s, p); }
  }

  lemma InstallIsCoherent(s: State, a: Action, s': State, id: Id)
    requires Inv(s, id) && Next(s, a, s') && Installs(s.current, PhaseOf(s, a.pid), a.move)
    requires id in s'.current.content
    ensures Agrees(s'.committed, id, s'.current.content[id]) || Invalidating(s', id)
  {
    var ph := PhaseOf(s, a.pid);
    assert Removes(ph);
    HeldIsOld(s, a.pid, Expected(ph));
    if ph.Matched? && ph.id == id {
      BroughtIsCoherent(s, id, a.pid, ph.policy.value);
    }
    if Invalidating(s, id) { StillInvalidating(s, a, s', id); }
  }

  // ----- Runs -----

  datatype Run = Run(states: seq<State>, acts: seq<Action>)

  ghost predicate StepAt(r: Run, i: nat)
  {
    i < |r.acts| && i + 1 < |r.states| && Next(r.states[i], r.acts[i], r.states[i + 1])
  }

  ghost predicate ValidRun(r: Run)
  {
    && |r.states| == |r.acts| + 1
    && r.states[0].procs == map[]
    && forall i :: 0 <= i < |r.acts| ==> StepAt(r, i)
  }

  ghost predicate HonestRun(r: Run)
    requires ValidRun(r)
  {
    forall i :: 0 <= i < |r.acts| ==> Honest(r.states[i], r.acts[i])
  }

  ghost predicate CoherentAt(r: Run, j: nat, id: Id)
  {
    j < |r.states| ==>
      var s := r.states[j];
      id in s.current.content ==> Agrees(s.committed, id, s.current.content[id]) || Invalidating(s, id)
  }

  // Step `i` installs a policy under `id`.
  predicate SetsAt(r: Run, i: nat, id: Id, v: Policy)
  {
    && i < |r.acts| && i < |r.states|
    && var ph := PhaseOf(r.states[i], r.acts[i].pid);
       && Installs(r.states[i].current, ph, r.acts[i].move)
       && ((ph.Matched? && ph.id == id && ph.policy == Some(v)) || (ph.Loaded? && ph.edit == Add(id, v)))
  }

  // What is installed under `id` is then committed, or about to be invalidated.
  ghost predicate SetsWell(r: Run, i: nat, id: Id)
  {
    forall v :: SetsAt(r, i, id, v) && i + 1 < |r.states| ==>
      Agrees(r.states[i + 1].committed, id, v) || Invalidating(r.states[i + 1], id)
  }

  lemma CoherentNext(r: Run, i: nat, id: Id)
    requires ValidRun(r) && i < |r.acts| && TablesInv(r.states[i]) && CoherentAt(r, i, id) && SetsWell(r, i, id)
    ensures CoherentAt(r, i + 1, id)
  {
    var s, a, s' := r.states[i], r.acts[i], r.states[i + 1];
    var ph := PhaseOf(s, a.pid);
    assert StepAt(r, i);
    if a.move.CommitChange? && ph.id == id {
      assert OwesFor(PhaseOf(s', a.pid), id);
    } else if Installs(s.current, ph, a.move) {
      HeldIsOld(s, a.pid, Expected(ph));
      if id in s'.current.content {
        var v := s'.current.content[id];
        assert SetsAt(r, i, id, v) || (id in s.current.content && s.current.content[id] == v);
        if Invalidating(s, id) && !OwesFor(ph, id) { StillInvalidating(s, a, s', id); }
      }
    } else if Invalidating(s, id) {
      StillInvalidating(s, a, s', id);
    }
  }

  // A cached policy goes wrong only at the step that installs it.
  lemma CoherentIffSetWell(r: Run, id: Id)
    requires ValidRun(r) && CoherentAt(r, 0, id)
    ensures (forall j: nat :: CoherentAt(r, j, id)) <==> (forall i: nat :: SetsWell(r, i, id))
  {
    if forall i: nat :: SetsWell(r, i, id) {
      forall j: nat ensures CoherentAt(r, j, id) {
        if j < |r.states| { StaysCoherent(r, j, id); }
      }
    }
    if forall j: nat :: CoherentAt(r, j, id) {
      forall i: nat ensures SetsWell(r, i, id) {
        if i < |r.acts| {
          assert StepAt(r, i) && CoherentAt(r, i + 1, id);
        }
      }
    }
  }

  lemma {:induction false} StaysCoherent(r: Run, j: nat, id: Id)
    requires ValidRun(r) && CoherentAt(r, 0, id) && j < |r.states| && forall i: nat :: SetsWell(r, i, id)
    ensures CoherentAt(r, j, id)
  {
    if j > 0 {
      StaysCoherent(r, j - 1, id);
      TablesHold(r, 0, j - 1);
      CoherentNext(r, j - 1, id);
    }
  }

  // Coherence over every run whose edits remove and whose reloads see committed
  // policies: each cached policy is the committed one unless a change to it has
  // committed and not yet run its invalidating edit.
  lemma {:induction false} CacheIsCoherent(r: Run, id: Id, j: nat)
    requires ValidRun(r) && HonestRun(r) && j < |r.states|
    requires r.states[0].current.content == map[]
    ensures Inv(r.states[j], id)
    ensures id in r.states[j].current.content ==>
              Get(r.states[j].committed, id) == Some(r.states[j].current.content[id]) || Invalidating(r.states[j], id)
  {
    if j > 0 {
      CacheIsCoherent(r, id, j - 1);
      var s, a, s' := r.states[j - 1], r.acts[j - 1], r.states[j];
      assert StepAt(r, j - 1) && Honest(s, a);
      TablesStep(s, a, s');
      CoherentStep(s, a, s', id);
      forall p ensures Removes(PhaseOf(s', p)) {
        assert Removes(PhaseOf(s, p));
        if p != a.pid { assert PhaseOf(s', p) == PhaseOf(s, p); }
      }
    }
  }

  // A reload inside a transaction that wrote the policy breaks that: the table
  // then holds a policy nobody committed, and no invalidation is to come.
  lemma UncommittedReloadBreaksCoherence(start: State, id: Id, policy: Policy) returns (r: Run)
    requires start.procs == map[] && start.current.content == map[] && id !in start.committed
    ensures ValidRun(r) && r.states[0] == start && (exists j: nat :: !CoherentAt(r, j, id))
  {
    var t, some := start.current, Some(policy);
    r := Run([start], []);
    r := Grow(r, Action(0, BeginFetch(id, Reload)), start.(procs := map[0 := Fetching(id, Reload)]));
    r := Grow(r, Action(0, Snapshot), start.(procs := map[0 := Snapped(id, Reload, t)]));
    r := Grow(r, Action(0, ReadView(some)), start.(procs := map[0 := Fetched(id, Reload, t, some)]));
    r := Grow(r, Action(0, Compare), start.(procs := map[0 := Matched(id, Reload, t, some)]));
    var end := start.(procs := map[0 := Finished], current := Table(t.ident + 1, map[id := policy]));
    r := Grow(r, Action(0, Swap), end);
    assert r.states[|r.acts|] == end && !Invalidating(end, id);
    assert !CoherentAt(r, |r.acts|, id);
  }

  lemma Grow(r: Run, a: Action, s: State) returns (r': Run)
    requires ValidRun(r) && Next(r.states[|r.acts|], a, s)
    ensures ValidRun(r') && r' == Run(r.states + [s], r.acts + [a])
  {
    r' := Run(r.states + [s], r.acts + [a]);
    forall i | 0 <= i < |r'.acts| ensures StepAt(r', i) {
      if i < |r.acts| { assert StepAt(r, i); }
    }
  }

  lemma {:induction false} TablesHold(r: Run, i: nat, j: nat)
    requires ValidRun(r) && i <= j < |r.states|
    ensures TablesInv(r.states[j]) && r.states[i].current.ident <= r.states[j].current.ident
  {
    if j > 0 {
      if i < j { TablesHold(r, i, j - 1); } else { TablesHold(r, i - 1, j - 1); }
      assert StepAt(r, j - 1);
      TablesStep(r.states[j - 1], r.acts[j - 1], r.states[j]);
    }
  }

  // A fetch begun before an invalidation, or any other installation, never
  // publishes after it: the table it snapped by state `i` is no longer current,
  // so its swap at step `j` changes nothing and it starts over.
  lemma StaleFetchNeverPublishes(r: Run, p: Pid, i: nat, k: nat, j: nat)
    requires ValidRun(r) && i <= k < j < |r.acts|
    requires r.acts[j] == Action(p, Swap) && PhaseOf(r.states[j], p).Matched?
    requires PhaseOf(r.states[j], p).before == r.states[i].current
    requires InstalledBy(r.states[k], r.acts[k]) != []
    ensures PhaseOf(r.states[j + 1], p).Fetching? && r.states[j + 1].current == r.states[j].current
  {
    TablesHold(r, i, k);
    TablesHold(r, k + 1, j);
    assert StepAt(r, k);
    assert StepAt(r, j);
  }

  // ----- No edit is lost -----

  // What a step does to the table: an edit or a publication, applied to the
  // table current at that instant, or nothing.
  datatype Install = ByEdit(edit: TableEdit) | ByFetch(id: Id, policy: Option<Policy>)

  function InstalledBy(s: State, a: Action): seq<Install>
  {
    var ph := PhaseOf(s, a.pid);
    if !Installs(s.current, ph, a.move) then []
    else if ph.Matched? then [ByFetch(ph.id, ph.policy)] else [ByEdit(ph.edit)]
  }

  function Applied(t: Policies, ins: Install): Policies
  {
    match ins
    case ByEdit(e) => Edited(t, e)
    case ByFetch(id, policy) => Put(t, id, policy)
  }

  function Replay(t: Policies, log: seq<Install>): Policies
  {
    if log == [] then t else Applied(Replay(t, log[..|log| - 1]), log[|log| - 1])
  }

  function Log(r: Run, n: nat): seq<Install>
    requires n <= |r.acts| && n <= |r.states|
  {
    if n == 0 then [] else Log(r, n - 1) + InstalledBy(r.states[n - 1], r.acts[n - 1])
  }

  // Whatever raced, the table is the result of every installed edit and
  // publication, each applied once, in one order.
  lemma {:induction false} TableIsReplayOfEverything(r: Run, n: nat)
    requires ValidRun(r) && n < |r.states|
    ensures r.states[n].current.content == Replay(r.states[0].current.content, Log(r, n))
  {
    if n > 0 {
      TableIsReplayOfEverything(r, n - 1);
      TablesHold(r, 0, n - 1);
      assert StepAt(r, n - 1);
      InstallsApply(r.states[n - 1], r.acts[n - 1], r.states[n]);
      ReplayMore(r.states[0].current.content, Log(r, n - 1), InstalledBy(r.states[n - 1], r.acts[n - 1]));
    }
  }

  lemma InstallsApply(s: State, a: Action, s': State)
    requires TablesInv(s) && Next(s, a, s')
    ensures var ins := InstalledBy(s, a);
            s'.current.content == if ins == [] then s.current.content else Applied(s.current.content, ins[0])
  {
    if InstalledBy(s, a) != [] { HeldIsOld(s, a.pid, Expected(PhaseOf(s, a.pid))); }
  }

  lemma ReplayMore(t: Policies, log: seq<Install>, ins: seq<Install>)
    requires |ins| <= 1
    ensures Replay(t, log + ins) == if ins == [] then Replay(t, log) else Applied(Replay(t, log), ins[0])
  {
    if ins == [] {
      assert log + ins == log;
    } else {
      assert (log + ins)[..|log|] == log;
    }
  }

  // What an edit leaves under one ID, given what was there.
  function Leaves(e: TableEdit, x: Id, was: Option<Policy>): Option<Policy>
  {
    match e
    case Clear => None
    case Remove(id) => if x == id then None else was
    case Add(id, policy) => if x == id then Some(policy) else was
  }

  // Every step, policy by policy: a clear empties the table, a removal takes its
  // policy out, an addition or a fetch sets its own, and the others stay as the
  // current table, not the one the caller copied, has them.
  lemma PolicyAfterStep(s: State, a: Action, s': State, x: Id)
    requires TablesInv(s) && Next(s, a, s')
    ensures var ph, was := PhaseOf(s, a.pid), Get(s.current.content, x);
            Get(s'.current.content, x) ==
            if !(a.move.Swap? && Expected(ph).ident == s.current.ident) then was
            else if ph.Loaded? then Leaves(ph.edit, x, was)
            else if x == ph.id then ph.policy else was
  {
    var ph := PhaseOf(s, a.pid);
    if a.move.Swap? { HeldIsOld(s, a.pid, Expected(ph)); }
  }

  // An `ensure_policy` that has fetched anything has a policy, the committed one of
  // the instant it read.
  lemma {:induction false} EnsureFetchesCommitted(r: Run, p: Pid, j: nat)
    requires ValidRun(r) && j < |r.states|
    requires var ph := PhaseOf(r.states[j], p); (ph.Fetched? || ph.Matched?) && ph.kind == Ensure
    ensures var ph := PhaseOf(r.states[j], p);
            && ph.policy.Some?
            && exists i: nat :: i < j && r.acts[i] == Action(p, ReadCommitted) && Get(r.states[i].committed, ph.id) == ph.policy
  {
    assert j > 0;
    var s, a, s' := r.states[j - 1], r.acts[j - 1], r.states[j];
    assert StepAt(r, j - 1);
    if a != Action(p, ReadCommitted) {
      assert PhaseOf(s', p) == PhaseOf(s, p) || a == Action(p, Compare);
      EnsureFetchesCommitted(r, p, j - 1);
    }
  }

  // And a fetch that ends has what it was for: the policy is in the table,
  // as fetched, or there is none to be had.
  lemma FetchesReturnWithThePolicy(s: State, a: Action, s': State)
    requires Next(s, a, s') && a.move != Crash && PhaseOf(s', a.pid).Finished?
    requires var ph := PhaseOf(s, a.pid); ph.Fetching? || ph.Snapped? || ph.Fetched? || ph.Matched?
    ensures var ph := PhaseOf(s, a.pid);
            || (ph.kind == Ensure && ph.id in s'.current.content && s'.current == s.current)
            || (ph.kind == Ensure && ph.id !in s.committed && s'.current == s.current)
            || (ph.Matched? && Get(s'.current.content, ph.id) == ph.policy && s'.current.ident > s.current.ident)
  {
  }

  // And an edit call returns only at the step that installs it.
  lemma EditsReturnInstalled(s: State, a: Action, s': State)
    requires TablesInv(s) && Next(s, a, s') && (PhaseOf(s, a.pid).Editing? || PhaseOf(s, a.pid).Loaded?)
    requires PhaseOf(s', a.pid).Finished?
    ensures PhaseOf(s, a.pid).Loaded? && InstalledBy(s, a) == [ByEdit(PhaseOf(s, a.pid).edit)]
    ensures s'.current.content == Edited(s.current.content, PhaseOf(s, a.pid).edit)
    ensures s'.current.ident > s.current.ident
  {
    HeldIsOld(s, a.pid, PhaseOf(s, a.pid).from);
  }
}
