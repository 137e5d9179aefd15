// The local document ACP: ownership and access decisions over a tuple store
// (crates/acp/src/local.rs, crates/acp/src/permission.rs).

module LocalAcp {
  import opened Options
  import opened Text
  import opened RelationKeys
  import opened TupleStores
  import opened Ownership
  import opened Identities

  datatype Permission = Read | Update | Delete

  datatype Error = InvalidPolicy | AlreadyRegistered | NotOwner | NotManager | InvalidRelation

  datatype Result<+T> = Ok(value: T) | Err(error: Error)

  const READ_IMPLYING := [Read, Update, Delete]

  function RelationName(p: Permission): Bytes
  {
    match p
    case Read => "reader"
    case Update => "updater"
    case Delete => "deleter"
  }

  // ----- Decisions as functions of the stored tuples -----

  predicate IsOwner(ts: set<RelationTuple>, did: Bytes, c: Bytes, d: Bytes)
  {
    OwnerTuple(did, c, d) in ts
  }

  predicate HasRelation(ts: set<RelationTuple>, did: Bytes, c: Bytes, d: Bytes, relation: Bytes)
  {
    RelationTuple(did, relation, c, d) in ts || RelationTuple(WILDCARD, relation, c, d) in ts
  }

  // Some relation of `did` grants `p`: reading is granted by any of the three.
  predicate Granted(ts: set<RelationTuple>, did: Bytes, c: Bytes, d: Bytes, p: Permission)
  {
    if p == Read then
      exists q :: q in READ_IMPLYING && HasRelation(ts, did, c, d, RelationName(q))
    else
      HasRelation(ts, did, c, d, RelationName(p))
  }

  predicate Access(ts: set<RelationTuple>, id: Identity, p: Permission, c: Bytes, d: Bytes)
  {
    if Of(c, d, ts) == {} then true
    else match id
      case Anonymous => Granted(ts, WILDCARD, c, d, p)
      case Authenticated(did) => IsOwner(ts, did, c, d) || Granted(ts, did, c, d, p)
  }

  predicate MayManage(ts: set<RelationTuple>, did: Bytes, c: Bytes, d: Bytes, managing: seq<Bytes>)
  {
    IsOwner(ts, did, c, d) || exists m :: m in managing && HasRelation(ts, did, c, d, m)
  }

  datatype LocalOp =
    | Register(who: Bytes, collection: Bytes, doc: Bytes)
    | Unregister(collection: Bytes, doc: Bytes)
    | Add(requestor: Bytes, target: Bytes, collection: Bytes, doc: Bytes, relation: Bytes, managing: seq<Bytes>)
    | Remove(requestor: Bytes, target: Bytes, collection: Bytes, doc: Bytes, relation: Bytes, managing: seq<Bytes>)

  // Relations and documents of a relationship change come checked from the
  // caller; registering and unregistering check the document themselves.
  predicate Checked(op: LocalOp)
  {
    (op.Add? || op.Remove?) ==>
      && ValidDocument(op.collection, op.doc) && ValidComponent(op.relation)
      && forall m :: m in op.managing ==> ValidComponent(m)
  }

  function Verdict(ts: set<RelationTuple>, op: LocalOp): Result<bool>
  {
    match op
    case Register(_, c, d) =>
      if !ValidDocument(c, d) then Err(InvalidPolicy)
      else if Of(c, d, ts) == {} then Ok(true) else Err(AlreadyRegistered)
    case Unregister(c, d) => if ValidDocument(c, d) then Ok(true) else Err(InvalidPolicy)
    case Add(q, t, c, d, r, managing) =>
      if !MayManage(ts, q, c, d, managing) then Err(if managing != [] then NotManager else NotOwner)
      else if r == OWNER_RELATION then Err(InvalidRelation)
      else Ok(RelationTuple(t, r, c, d) !in ts)
    case Remove(q, t, c, d, r, managing) =>
      if !MayManage(ts, q, c, d, managing) then Err(if managing != [] then NotManager else NotOwner)
      else if r == OWNER_RELATION then Err(InvalidRelation)
      else Ok(RelationTuple(t, r, c, d) in ts)
  }

  function After(ts: set<RelationTuple>, op: LocalOp): set<RelationTuple>
  {
    if Verdict(ts, op) != Ok(true) then ts else
    match op
    case Register(o, c, d) => ts + {OwnerTuple(o, c, d)}
    case Unregister(c, d) => ts - Of(c, d, ts)
    case Add(_, t, c, d, r, _) => ts + {RelationTuple(t, r, c, d)}
    case Remove(_, t, c, d, r, _) => ts - {RelationTuple(t, r, c, d)}
  }

  // ----- The same decisions, tuple by tuple -----

  // The relations that grant a permission, by name.
  function Granting(p: Permission): set<Bytes>
  {
    match p
    case Read => {"reader", "updater", "deleter"}
    case Update => {"updater"}
    case Delete => {"deleter"}
  }

  // The tuple is held by everyone or by this identity.
  predicate Reaches(t: RelationTuple, id: Identity)
  {
    t.subject == "*" || id == Authenticated(t.subject)
  }

  // Who may do what to a document with tuples: an owner everything, anyone else
  // what some tuple of the document that reaches them grants.
  ghost predicate Admits(ts: set<RelationTuple>, id: Identity, p: Permission, c: Bytes, d: Bytes)
  {
    || (id.Authenticated? && RelationTuple(id.did, "owner", c, d) in ts)
    || exists t :: t in ts && t.collection == c && t.doc == d && Reaches(t, id) && t.relation in Granting(p)
  }

  // Who may change a document's relationships: whoever holds its owner tuple, or
  // a managing relation directly or through the wildcard.
  ghost predicate Manages(ts: set<RelationTuple>, did: Bytes, c: Bytes, d: Bytes, managing: seq<Bytes>)
  {
    || RelationTuple(did, "owner", c, d) in ts
    || exists t :: t in ts && t.collection == c && t.doc == d && (t.subject == did || t.subject == "*")
                   && t.relation in managing
  }

  ghost predicate AnyOf(ts: set<RelationTuple>, c: Bytes, d: Bytes)
  {
    exists t :: t in ts && t.collection == c && t.doc == d
  }

  lemma HasTuples(ts: set<RelationTuple>, c: Bytes, d: Bytes)
    ensures AnyOf(ts, c, d) <==> Of(c, d, ts) != {}
  {
    if t :| t in ts && t.collection == c && t.doc == d { assert t in Of(c, d, ts); }
  }

  lemma HasRelationMeans(ts: set<RelationTuple>, did: Bytes, c: Bytes, d: Bytes, relation: Bytes)
    ensures HasRelation(ts, did, c, d, relation) <==>
            exists t :: t in ts && t.collection == c && t.doc == d && (t.subject == did || t.subject == "*")
                        && t.relation == relation
  {
    if t :| t in ts && t.collection == c && t.doc == d && (t.subject == did || t.subject == "*") && t.relation == relation {
      assert t == RelationTuple(did, relation, c, d) || t == RelationTuple(WILDCARD, relation, c, d);
    }
  }

  // The decision procedure admits exactly whom the tuples admit.
  lemma AccessIsAdmission(ts: set<RelationTuple>, id: Identity, p: Permission, c: Bytes, d: Bytes)
    ensures Access(ts, id, p, c, d) <==> Of(c, d, ts) == {} || Admits(ts, id, p, c, d)
  {
    var did := if id.Anonymous? then WILDCARD else id.did;
    forall q ensures HasRelation(ts, did, c, d, RelationName(q)) <==>
                     exists t :: t in ts && t.collection == c && t.doc == d && Reaches(t, id) && t.relation == RelationName(q)
    {
      HasRelationMeans(ts, did, c, d, RelationName(q));
    }
    assert Read in READ_IMPLYING && Update in READ_IMPLYING && Delete in READ_IMPLYING;
    if Of(c, d, ts) != {} && Admits(ts, id, p, c, d) && !(id.Authenticated? && RelationTuple(id.did, "owner", c, d) in ts) {
      var t :| t in ts && t.collection == c && t.doc == d && Reaches(t, id) && t.relation in Granting(p);
      var q := if t.relation == "reader" then Read else if t.relation == "updater" then Update else Delete;
      assert HasRelation(ts, did, c, d, RelationName(q));
    }
  }

  lemma MayManageMeans(ts: set<RelationTuple>, did: Bytes, c: Bytes, d: Bytes, managing: seq<Bytes>)
    ensures MayManage(ts, did, c, d, managing) <==> Manages(ts, did, c, d, managing)
  {
    forall m ensures HasRelation(ts, did, c, d, m) <==>
                     exists t :: t in ts && t.collection == c && t.doc == d && (t.subject == did || t.subject == "*")
                                 && t.relation == m
    {
      HasRelationMeans(ts, did, c, d, m);
    }
  }

  // ----- The operations themselves -----

  class LocalDocumentAcp {
    const store: MemoryAcpStore

    constructor (store: MemoryAcpStore)
      ensures this.store == store
    {
      this.store := store;
    }

    method HasRelationTo(did: Bytes, c: Bytes, d: Bytes, relation: Bytes) returns (has: bool)
      requires store.Valid() && ValidDocument(c, d) && ValidComponent(relation)
      ensures has <==> HasRelation(store.Held(), did, c, d, relation)
    {
      has := store.HasTuple(RelationTuple(did, relation, c, d));
      if !has {
        has := store.HasTuple(RelationTuple(WILDCARD, relation, c, d));
      }
    }

    method CheckAnyImpliesRead(did: Bytes, c: Bytes, d: Bytes, p: Permission) returns (granted: bool)
      requires store.Valid() && ValidDocument(c, d)
      ensures granted <==> Granted(store.Held(), did, c, d, p)
    {
      assert forall q :: ValidComponent(RelationName(q));
      if p == Read {
        for n := 0 to |READ_IMPLYING|
          invariant forall i :: 0 <= i < n ==> !HasRelation(store.Held(), did, c, d, RelationName(READ_IMPLYING[i]))
        {
          var has := HasRelationTo(did, c, d, RelationName(READ_IMPLYING[n]));
          if has { return true; }
        }
        granted := false;
      } else {
        granted := HasRelationTo(did, c, d, RelationName(p));
      }
    }

    method RegisterDocObject(who: Bytes, policy: Bytes, resource: Bytes, d: Bytes) returns (r: Result<bool>)
      requires store.Valid()
      modifies store
      ensures store.Valid()
      ensures var c := NamespacedCollection(policy, resource);
              var was := old(store.Held());
              if !ValidDocument(c, d) then store.Held() == was && r == Err(InvalidPolicy)
              else if AnyOf(was, c, d)
              then store.Held() == was && r == Err(AlreadyRegistered)
              else store.Held() == was + {RelationTuple(who, "owner", c, d)} && r == Ok(true)
      ensures var op := Register(who, NamespacedCollection(policy, resource), d);
              r == Verdict(old(store.Held()), op) && store.Held() == After(old(store.Held()), op)
    {
      HasTuples(store.Held(), NamespacedCollection(policy, resource), d);
      var ok, won := store.RegisterDocAtomic(who, NamespacedCollection(policy, resource), d);
      r := if !ok then Err(InvalidPolicy) else if won then Ok(true) else Err(AlreadyRegistered);
    }

    method IsDocRegistered(policy: Bytes, resource: Bytes, d: Bytes) returns (r: Result<bool>)
      requires store.Valid()
      ensures var c := NamespacedCollection(policy, resource);
              r == if ValidDocument(c, d) then Ok(Of(c, d, store.Held()) != {}) else Err(InvalidPolicy)
    {
      var ok, registered := store.IsDocRegistered(NamespacedCollection(policy, resource), d);
      r := if ok then Ok(registered) else Err(InvalidPolicy);
    }

    // The first subject the scan yields, whatever its order.
    method GetDocOwner(policy: Bytes, resource: Bytes, d: Bytes) returns (r: Result<Option<Bytes>>)
      requires store.Valid()
      ensures var c := NamespacedCollection(policy, resource);
              && (r == Err(InvalidPolicy) <==> !ValidDocument(c, d))
              && (r.Ok? ==> match r.value
                            case Some(o) => o in Subjects(store.Held(), c, d, OWNER_RELATION)
                            case None => Subjects(store.Held(), c, d, OWNER_RELATION) == {})
              && (r.Err? ==> r.error == InvalidPolicy)
    {
      var ok, owners := store.GetRelationSubjects(NamespacedCollection(policy, resource), d, OWNER_RELATION);
      r := if !ok then Err(InvalidPolicy) else if owners == [] then Ok(None) else Ok(Some(owners[0]));
    }

    method CheckDocAccess(id: Identity, p: Permission, policy: Bytes, resource: Bytes, d: Bytes)
      returns (r: Result<bool>)
      requires store.Valid()
      ensures var c := NamespacedCollection(policy, resource);
              r == if !ValidDocument(c, d) then Err(InvalidPolicy)
                   else Ok(Of(c, d, store.Held()) == {} || Admits(store.Held(), id, p, c, d))
    {
      var c := NamespacedCollection(policy, resource);
      AccessIsAdmission(store.Held(), id, p, c, d);
      var ok, registered := store.IsDocRegistered(c, d);
      if !ok { return Err(InvalidPolicy); }
      if !registered { return Ok(true); }
      match id
      case Anonymous =>
        var granted := CheckAnyImpliesRead(WILDCARD, c, d, p);
        return Ok(granted);
      case Authenticated(did) =>
        var owner := store.HasTuple(OwnerTuple(did, c, d));
        if owner { return Ok(true); }
        var granted := CheckAnyImpliesRead(did, c, d, p);
        return Ok(granted);
    }

    method MayManageDoc(requestor: Bytes, c: Bytes, d: Bytes, managing: seq<Bytes>) returns (may: bool)
      requires store.Valid() && ValidDocument(c, d) && forall m :: m in managing ==> ValidComponent(m)
      ensures may <==> Manages(store.Held(), requestor, c, d, managing)
    {
      MayManageMeans(store.Held(), requestor, c, d, managing);
      may := store.HasTuple(OwnerTuple(requestor, c, d));
      if !may {
        for n := 0 to |managing|
          invariant forall i :: 0 <= i < n ==> !HasRelation(store.Held(), requestor, c, d, managing[i])
        {
          var has := HasRelationTo(requestor, c, d, managing[n]);
          if has { return true; }
        }
      }
    }

    method AddActorRelationship(requestor: Bytes, target: Bytes, policy: Bytes, resource: Bytes, d: Bytes,
                                relation: Bytes, managing: seq<Bytes>) returns (r: Result<bool>)
      requires store.Valid()
      requires Checked(Add(requestor, target, NamespacedCollection(policy, resource), d, relation, managing))
      modifies store
      ensures store.Valid()
      ensures var c := NamespacedCollection(policy, resource);
              var t, was := RelationTuple(target, relation, c, d), old(store.Held());
              if !Manages(was, requestor, c, d, managing)
              then store.Held() == was && r == Err(if managing != [] then NotManager else NotOwner)
              else if relation == "owner" then store.Held() == was && r == Err(InvalidRelation)
              else store.Held() == was + {t} && r == Ok(t !in was)
      ensures var op := Add(requestor, target, NamespacedCollection(policy, resource), d, relation, managing);
              r == Verdict(old(store.Held()), op) && store.Held() == After(old(store.Held()), op)
    {
      var c := NamespacedCollection(policy, resource);
      MayManageMeans(store.Held(), requestor, c, d, managing);
      var may := MayManageDoc(requestor, c, d, managing);
      if !may { return Err(if managing != [] then NotManager else NotOwner); }
      if relation == OWNER_RELATION { return Err(InvalidRelation); }
      var tuple := RelationTuple(target, relation, c, d);
      var has := store.HasTuple(tuple);
      if has { return Ok(false); }
      store.PutTuple(tuple);
      return Ok(true);
    }

    method DeleteActorRelationship(requestor: Bytes, target: Bytes, policy: Bytes, resource: Bytes, d: Bytes,
                                   relation: Bytes, managing: seq<Bytes>) returns (r: Result<bool>)
      requires store.Valid()
      requires Checked(Remove(requestor, target, NamespacedCollection(policy, resource), d, relation, managing))
      modifies store
      ensures store.Valid()
      ensures var c := NamespacedCollection(policy, resource);
              var t, was := RelationTuple(target, relation, c, d), old(store.Held());
              if !Manages(was, requestor, c, d, managing)
              then store.Held() == was && r == Err(if managing != [] then NotManager else NotOwner)
              else if relation == "owner" then store.Held() == was && r == Err(InvalidRelation)
              else store.Held() == was - {t} && r == Ok(t in was)
      ensures var op := Remove(requestor, target, NamespacedCollection(policy, resource), d, relation, managing);
              r == Verdict(old(store.Held()), op) && store.Held() == After(old(store.Held()), op)
    {
      var c := NamespacedCollection(policy, resource);
      MayManageMeans(store.Held(), requestor, c, d, managing);
      var may := MayManageDoc(requestor, c, d, managing);
      if !may { return Err(if managing != [] then NotManager else NotOwner); }
      if relation == OWNER_RELATION { return Err(InvalidRelation); }
      var tuple := RelationTuple(target, relation, c, d);
      var has := store.HasTuple(tuple);
      if !has { return Ok(false); }
      store.DeleteTuple(tuple);
      return Ok(true);
    }

    method UnregisterDocObject(policy: Bytes, resource: Bytes, d: Bytes) returns (r: Result<bool>)
      requires store.Valid()
      modifies store
      ensures store.Valid()
      ensures var c := NamespacedCollection(policy, resource);
              && r == (if ValidDocument(c, d) then Ok(true) else Err(InvalidPolicy))
              && forall t :: t in store.Held() <==> t in old(store.Held()) && !(r.Ok? && t.collection == c && t.doc == d)
      ensures var op := Unregister(NamespacedCollection(policy, resource), d);
              r == Verdict(old(store.Held()), op) && store.Held() == After(old(store.Held()), op)
    {
      var ok := store.DeleteDocTuples(NamespacedCollection(policy, resource), d);
      r := if ok then Ok(true) else Err(InvalidPolicy);
    }
  }

  // ----- Ownership over whole operations -----

  // Every document has no tuples or exactly one owner.
  ghost predicate Settled(ts: set<RelationTuple>)
  {
    forall c, d :: Of(c, d, ts) == {} || exists o :: OwnersOf(ts, c, d) == {o}
  }

  function Run(ts: set<RelationTuple>, ops: seq<LocalOp>): set<RelationTuple>
  {
    if ops == [] then ts else After(Run(ts, ops[..|ops| - 1]), ops[|ops| - 1])
  }

  // What one operation does to one document's owners.
  lemma OwnersAfter(ts: set<RelationTuple>, op: LocalOp, c: Bytes, d: Bytes)
    ensures (op.Add? || op.Remove?) ==> OwnersOf(After(ts, op), c, d) == OwnersOf(ts, c, d)
    ensures op.Register? && Verdict(ts, op) == Ok(true) && op.collection == c && op.doc == d ==>
              OwnersOf(After(ts, op), c, d) == {op.who}
    ensures op.Unregister? && Verdict(ts, op) == Ok(true) && op.collection == c && op.doc == d ==>
              Of(c, d, After(ts, op)) == {}
    ensures (op.Register? || op.Unregister?) && !(Verdict(ts, op) == Ok(true) && op.collection == c && op.doc == d) ==>
              Of(c, d, After(ts, op)) == Of(c, d, ts)
  {
    var ts' := After(ts, op);
    if op.Add? || op.Remove? {
      forall o ensures o in OwnersOf(ts', c, d) <==> o in OwnersOf(ts, c, d) {
        OwnerMeansTuple(ts, c, d, o);
        OwnerMeansTuple(ts', c, d, o);
      }
    } else if op.Register? && Verdict(ts, op) == Ok(true) && op.collection == c && op.doc == d {
      forall o ensures o in OwnersOf(ts', c, d) <==> o == op.who {
        OwnerMeansTuple(ts', c, d, o);
        assert OwnerTuple(o, c, d) in ts ==> OwnerTuple(o, c, d) in Of(c, d, ts);
      }
    }
  }

  // A manager's or an owner's tuple is itself one of the document's.
  lemma ManagedIsRegistered(ts: set<RelationTuple>, did: Bytes, c: Bytes, d: Bytes, managing: seq<Bytes>)
    requires MayManage(ts, did, c, d, managing)
    ensures Of(c, d, ts) != {}
  {
    if IsOwner(ts, did, c, d) {
      assert OwnerTuple(did, c, d) in Of(c, d, ts);
    } else {
      var m :| m in managing && HasRelation(ts, did, c, d, m);
      assert RelationTuple(did, m, c, d) in Of(c, d, ts) || RelationTuple(WILDCARD, m, c, d) in Of(c, d, ts);
    }
  }

  lemma AfterElsewhere(ts: set<RelationTuple>, op: LocalOp, c: Bytes, d: Bytes)
    requires op.collection != c || op.doc != d
    ensures Of(c, d, After(ts, op)) == Of(c, d, ts)
  {
  }

  lemma SettledStep(ts: set<RelationTuple>, op: LocalOp)
    requires Settled(ts)
    ensures Settled(After(ts, op))
  {
    var ts' := After(ts, op);
    forall c, d ensures Of(c, d, ts') == {} || exists o :: OwnersOf(ts', c, d) == {o} {
      OwnersAfter(ts, op, c, d);
      if op.collection == c && op.doc == d {
        if op.Register? && ts' != ts {
          assert OwnersOf(ts', c, d) == {op.who};
        } else if (op.Add? || op.Remove?) && ts' != ts {
          ManagedIsRegistered(ts, op.requestor, c, d, op.managing);
          var o :| OwnersOf(ts, c, d) == {o};
          assert OwnersOf(ts', c, d) == {o};
        }
      } else {
        AfterElsewhere(ts, op, c, d);
        if Of(c, d, ts) != {} {
          var o :| OwnersOf(ts, c, d) == {o};
          assert OwnersOf(ts', c, d) == {o};
        }
      }
    }
  }

  // From an empty store, whatever whole operations run: every document has no
  // tuples or exactly one owner.
  lemma {:induction false} AlwaysSettled(ops: seq<LocalOp>)
    ensures Settled(Run({}, ops))
  {
    if ops != [] {
      AlwaysSettled(ops[..|ops| - 1]);
      SettledStep(Run({}, ops[..|ops| - 1]), ops[|ops| - 1]);
    }
  }

  // The owner is the DID whose registration succeeded, and stays so until the
  // document is unregistered, whatever else happens.
  lemma {:induction false} OwnerIsRegistrant(before: seq<LocalOp>, o: Bytes, c: Bytes, d: Bytes, after: seq<LocalOp>)
    requires Verdict(Run({}, before), Register(o, c, d)) == Ok(true)
    requires Unregister(c, d) !in after
    ensures OwnersOf(Run({}, before + [Register(o, c, d)] + after), c, d) == {o}
  {
    var ops := before + [Register(o, c, d)] + after;
    if after == [] {
      assert ops == before + [Register(o, c, d)] && ops[..|ops| - 1] == before;
      OwnersAfter(Run({}, before), Register(o, c, d), c, d);
    } else {
      var rest, last := after[..|after| - 1], after[|after| - 1];
      assert ops[..|ops| - 1] == before + [Register(o, c, d)] + rest && ops[|ops| - 1] == last;
      assert last in after && (Unregister(c, d) in rest ==> Unregister(c, d) in after);
      OwnerIsRegistrant(before, o, c, d, rest);
      var ts := Run({}, before + [Register(o, c, d)] + rest);
      OwnerMeansTuple(ts, c, d, o);
      assert OwnerTuple(o, c, d) in Of(c, d, ts);
      OwnersAfter(ts, last, c, d);
    }
  }

  // So the owner `GetDocOwner` reads is the owner, in any scan order.
  lemma OwnerReadIsUnique(ops: seq<LocalOp>, c: Bytes, d: Bytes, x: Bytes, y: Bytes)
    requires x in OwnersOf(Run({}, ops), c, d) && y in OwnersOf(Run({}, ops), c, d)
    ensures x == y
  {
    AlwaysSettled(ops);
    OwnerMeansTuple(Run({}, ops), c, d, x);
    assert OwnerTuple(x, c, d) in Of(c, d, Run({}, ops));
  }

  // ----- Access -----

  // Right after a registration succeeds, whatever came before it, its caller has
  // every permission and nobody else has any.
  lemma RegistrantAlone(before: seq<LocalOp>, o: Bytes, c: Bytes, d: Bytes, id: Identity, p: Permission)
    requires Verdict(Run({}, before), Register(o, c, d)) == Ok(true)
    ensures Access(Run({}, before + [Register(o, c, d)]), id, p, c, d) <==> id == Authenticated(o)
  {
    var ts := Run({}, before);
    var ts' := Run({}, before + [Register(o, c, d)]);
    assert (before + [Register(o, c, d)])[..|before|] == before;
    forall t | t in ts' && t.collection == c && t.doc == d ensures t == RelationTuple(o, "owner", c, d) {
      assert t in ts ==> t in Of(c, d, ts);
    }
    assert RelationTuple(o, "owner", c, d) in Of(c, d, ts');
    AccessIsAdmission(ts', id, p, c, d);
  }

  // Until the document is unregistered its registrant keeps every permission.
  lemma RegistrantKeepsAccess(before: seq<LocalOp>, o: Bytes, c: Bytes, d: Bytes, after: seq<LocalOp>, p: Permission)
    requires Verdict(Run({}, before), Register(o, c, d)) == Ok(true)
    requires Unregister(c, d) !in after
    ensures Access(Run({}, before + [Register(o, c, d)] + after), Authenticated(o), p, c, d)
  {
    var ts := Run({}, before + [Register(o, c, d)] + after);
    OwnerIsRegistrant(before, o, c, d, after);
    OwnerMeansTuple(ts, c, d, o);
    AccessIsAdmission(ts, Authenticated(o), p, c, d);
  }

  // A new relationship gives its target, or everyone for "*", exactly the
  // permissions its relation grants, and nobody anything else.
  lemma SharingGivesExactly(ts: set<RelationTuple>, op: LocalOp, id: Identity, p: Permission)
    requires op.Add? && Verdict(ts, op) == Ok(true)
    ensures Access(After(ts, op), id, p, op.collection, op.doc) <==>
            || Access(ts, id, p, op.collection, op.doc)
            || ((op.target == "*" || id == Authenticated(op.target)) && op.relation in Granting(p))
  {
    var c, d, ts' := op.collection, op.doc, After(ts, op);
    var t := RelationTuple(op.target, op.relation, c, d);
    ManagedIsRegistered(ts, op.requestor, c, d, op.managing);
    assert t in Of(c, d, ts') && t in ts';
    AccessIsAdmission(ts, id, p, c, d);
    AccessIsAdmission(ts', id, p, c, d);
  }

  // Whoever could add it can take it back, and that leaves the tuples, hence all
  // access, as they were before.
  lemma RevokingUndoesSharing(ts: set<RelationTuple>, op: LocalOp)
    requires op.Add? && Verdict(ts, op) == Ok(true)
    ensures var undo := Remove(op.requestor, op.target, op.collection, op.doc, op.relation, op.managing);
            Verdict(After(ts, op), undo) == Ok(true) && After(After(ts, op), undo) == ts
  {
    var c, d, ts' := op.collection, op.doc, After(ts, op);
    MayManageMeans(ts, op.requestor, c, d, op.managing);
    MayManageMeans(ts', op.requestor, c, d, op.managing);
  }

  // Update or delete access implies read access.
  lemma WritersMayRead(ts: set<RelationTuple>, id: Identity, p: Permission, c: Bytes, d: Bytes)
    requires Access(ts, id, p, c, d)
    ensures Access(ts, id, Read, c, d)
  {
    assert p in READ_IMPLYING;
  }

  // Whatever the anonymous identity may do, anyone may.
  lemma AnonymousIsTheLeast(ts: set<RelationTuple>, did: Bytes, p: Permission, c: Bytes, d: Bytes)
    requires Access(ts, Anonymous, p, c, d)
    ensures Access(ts, Authenticated(did), p, c, d)
  {
    if Of(c, d, ts) != {} && p == Read {
      var q :| q in READ_IMPLYING && HasRelation(ts, WILDCARD, c, d, RelationName(q));
      assert HasRelation(ts, did, c, d, RelationName(q));
    }
  }

  lemma GrantsGrow(ts: set<RelationTuple>, ts': set<RelationTuple>, did: Bytes, p: Permission, c: Bytes, d: Bytes)
    requires Of(c, d, ts) <= Of(c, d, ts')
    ensures IsOwner(ts, did, c, d) ==> IsOwner(ts', did, c, d)
    ensures Granted(ts, did, c, d, p) ==> Granted(ts', did, c, d, p)
  {
    forall subject, relation | RelationTuple(subject, relation, c, d) in ts
      ensures RelationTuple(subject, relation, c, d) in ts'
    {
      assert RelationTuple(subject, relation, c, d) in Of(c, d, ts);
    }
    if Granted(ts, did, c, d, p) && p == Read {
      var q :| q in READ_IMPLYING && HasRelation(ts, did, c, d, RelationName(q));
      assert HasRelation(ts', did, c, d, RelationName(q));
    }
  }

  // In a registered document access only grows with its tuples.
  lemma AccessGrows(ts: set<RelationTuple>, ts': set<RelationTuple>, id: Identity, p: Permission, c: Bytes, d: Bytes)
    requires Of(c, d, ts) != {} && Of(c, d, ts) <= Of(c, d, ts') && Access(ts, id, p, c, d)
    ensures Access(ts', id, p, c, d)
  {
    GrantsGrow(ts, ts', if id.Anonymous? then WILDCARD else id.did, p, c, d);
  }

  // Adding a relationship, in any state, never takes access away: whoever may
  // add proves the document is registered already.
  lemma AddingNeverRemovesAccess(ts: set<RelationTuple>, op: LocalOp, id: Identity, p: Permission, c: Bytes, d: Bytes)
    requires op.Add? && Access(ts, id, p, c, d)
    ensures Access(After(ts, op), id, p, c, d)
  {
    var ts' := After(ts, op);
    if op.collection != c || op.doc != d {
      AfterElsewhere(ts, op, c, d);
      if Of(c, d, ts) != {} { AccessGrows(ts, ts', id, p, c, d); }
    } else if ts' != ts {
      ManagedIsRegistered(ts, op.requestor, c, d, op.managing);
      AccessGrows(ts, ts', id, p, c, d);
    }
  }

  // Deleting one never gives anyone access they lacked, in every state whole
  // operations reach: the owner tuple stays, so the document stays registered.
  lemma DeletingNeverGivesAccess(ops: seq<LocalOp>, op: LocalOp, id: Identity, p: Permission, c: Bytes, d: Bytes)
    requires op.Remove? && Access(Run({}, ops + [op]), id, p, c, d)
    ensures Access(Run({}, ops), id, p, c, d)
  {
    assert (ops + [op])[..|ops|] == ops;
    var ts := Run({}, ops);
    var ts' := After(ts, op);
    if Of(c, d, ts) != {} {
      AlwaysSettled(ops);
      var o :| OwnersOf(ts, c, d) == {o};
      OwnersAfter(ts, op, c, d);
      OwnerMeansTuple(ts', c, d, o);
      assert o in OwnersOf(ts', c, d);
      assert OwnerTuple(o, c, d) in Of(c, d, ts');
      AccessGrows(ts', ts, id, p, c, d);
    }
  }

  // Outside those states it can, and exactly by emptying the document: the
  // removal gives someone new access if and only if it takes the last tuple.
  lemma DeletingGivesAccessIff(ts: set<RelationTuple>, op: LocalOp)
    requires op.Remove? && Verdict(ts, op) == Ok(true)
    ensures (exists id, p :: Access(After(ts, op), id, p, op.collection, op.doc) &&
                             !Access(ts, id, p, op.collection, op.doc))
            <==> Of(op.collection, op.doc, ts) == {RelationTuple(op.target, op.relation, op.collection, op.doc)}
  {
    var c, d, ts' := op.collection, op.doc, After(ts, op);
    var t := RelationTuple(op.target, op.relation, c, d);
    assert t in Of(c, d, ts) && Of(c, d, ts') == Of(c, d, ts) - {t};
    if Of(c, d, ts) == {t} {
      var p := if op.relation == RelationName(Update) then Delete else Update;
      assert RelationName(Update)[0] != RelationName(Delete)[0];
      assert RelationTuple(WILDCARD, RelationName(p), c, d) !in Of(c, d, ts);
      assert Access(ts', Anonymous, p, c, d) && !Access(ts, Anonymous, p, c, d);
    } else {
      forall id, p | Access(ts', id, p, c, d) ensures Access(ts, id, p, c, d) {
        AccessGrows(ts', ts, id, p, c, d);
      }
    }
  }
}
