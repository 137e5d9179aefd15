// The two relation-tuple stores, in memory (crates/acp/src/local.rs) and over
// the shared key-value store (crates/acp/src/persistent.rs), both proved
// against one abstract set of tuples. Each method runs alone here; what their
// transactions and swaps do under concurrency is in RegisterOnce and
// CasRegistration.

module TupleStores {
  import opened Text
  import opened RelationKeys
  import opened PendingKeys

  // ----- The abstract store: a set of tuples -----

  datatype Op =
    | PutTuple(tuple: RelationTuple)
    | DeleteTuple(tuple: RelationTuple)
    | HasTuple(tuple: RelationTuple)
    | GetDocTuples(collection: Bytes, doc: Bytes)
    | GetRelationSubjects(collection: Bytes, doc: Bytes, relation: Bytes)
    | GetSubjectRelations(subject: Bytes, collection: Bytes, doc: Bytes)
    | DeleteDocTuples(collection: Bytes, doc: Bytes)
    | IsDocRegistered(collection: Bytes, doc: Bytes)
    | RegisterDocAtomic(owner: Bytes, collection: Bytes, doc: Bytes)

  // What a caller learns. Lists are compared as sets: a hash map promises no order.
  datatype Answer = Done | Yes | No | Tuples(tuples: set<RelationTuple>) | Names(names: set<Bytes>) | InvalidPath

  // Tuples reach the store validated by construction; identifiers do not.
  predicate WellFormed(op: Op)
  {
    match op
    case PutTuple(t) => ValidTuple(t)
    case DeleteTuple(t) => ValidTuple(t)
    case HasTuple(t) => ValidTuple(t)
    case _ => true
  }

  predicate Accepts(op: Op)
  {
    match op
    case GetDocTuples(c, d) => ValidDocument(c, d)
    case GetRelationSubjects(c, d, r) => ValidDocument(c, d) && ValidComponent(r)
    case GetSubjectRelations(_, c, d) => ValidDocument(c, d)
    case DeleteDocTuples(c, d) => ValidDocument(c, d)
    case IsDocRegistered(c, d) => ValidDocument(c, d)
    case RegisterDocAtomic(_, c, d) => ValidDocument(c, d)
    case _ => true
  }

  function Subjects(ts: set<RelationTuple>, c: Bytes, d: Bytes, r: Bytes): set<Bytes>
  {
    set t | t in Of(c, d, ts) && t.relation == r :: t.subject
  }

  function Relations(ts: set<RelationTuple>, subject: Bytes, c: Bytes, d: Bytes): set<Bytes>
  {
    set t | t in Of(c, d, ts) && t.subject == subject :: t.relation
  }

  // Either list names exactly what the tuples say.
  lemma NamesMean(ts: set<RelationTuple>, x: Bytes, r: Bytes, c: Bytes, d: Bytes)
    ensures x in Subjects(ts, c, d, r) <==> RelationTuple(x, r, c, d) in ts
    ensures r in Relations(ts, x, c, d) <==> RelationTuple(x, r, c, d) in ts
  {
    if RelationTuple(x, r, c, d) in ts {
      assert RelationTuple(x, r, c, d) in Of(c, d, ts);
    }
  }

  function Effect(ts: set<RelationTuple>, op: Op): set<RelationTuple>
  {
    if !Accepts(op) then ts else
    match op
    case PutTuple(t) => ts + {t}
    case DeleteTuple(t) => ts - {t}
    case DeleteDocTuples(c, d) => ts - Of(c, d, ts)
    case RegisterDocAtomic(o, c, d) => if Of(c, d, ts) == {} then ts + {OwnerTuple(o, c, d)} else ts
    case _ => ts
  }

  function YesIf(b: bool): Answer { if b then Yes else No }

  function Reply(ts: set<RelationTuple>, op: Op): Answer
  {
    if !Accepts(op) then InvalidPath else
    match op
    case PutTuple(_) => Done
    case DeleteTuple(_) => Done
    case HasTuple(t) => YesIf(t in ts)
    case GetDocTuples(c, d) => Tuples(Of(c, d, ts))
    case GetRelationSubjects(c, d, r) => Names(Subjects(ts, c, d, r))
    case GetSubjectRelations(s, c, d) => Names(Relations(ts, s, c, d))
    case DeleteDocTuples(_, _) => Done
    case IsDocRegistered(c, d) => YesIf(Of(c, d, ts) != {})
    case RegisterDocAtomic(_, c, d) => YesIf(Of(c, d, ts) == {})
  }

  // ----- What callers can observe -----

  predicate Has(ts: set<RelationTuple>, t: RelationTuple)
  {
    Reply(ts, HasTuple(t)) == Yes
  }

  // What a later `has_tuple` says, after each operation and about any tuple.
  lemma ReadBack(ts: set<RelationTuple>, op: Op, t: RelationTuple)
    ensures op.PutTuple? ==> (Has(Effect(ts, op), t) <==> Has(ts, t) || t == op.tuple)
    ensures op.DeleteTuple? ==> (Has(Effect(ts, op), t) <==> Has(ts, t) && t != op.tuple)
    ensures op.DeleteDocTuples? ==>
              (Has(Effect(ts, op), t) <==>
               Has(ts, t) && !(ValidDocument(op.collection, op.doc) && t.collection == op.collection && t.doc == op.doc))
    ensures op.RegisterDocAtomic? ==>
              (Has(Effect(ts, op), t) <==>
               Has(ts, t) || (Reply(ts, op) == Yes && t == RelationTuple(op.owner, "owner", op.collection, op.doc)))
    ensures !op.PutTuple? && !op.DeleteTuple? && !op.DeleteDocTuples? && !op.RegisterDocAtomic? ==>
              (Has(Effect(ts, op), t) <==> Has(ts, t))
  {
  }

  // All other answers follow from what `has_tuple` says of the document's tuples.
  lemma AnswersAgree(ts: set<RelationTuple>, c: Bytes, d: Bytes, x: Bytes, r: Bytes)
    requires ValidDocument(c, d) && ValidComponent(r)
    ensures forall t :: Has(ts, t) && t.collection == c && t.doc == d <==> t in Reply(ts, GetDocTuples(c, d)).tuples
    ensures x in Reply(ts, GetRelationSubjects(c, d, r)).names <==> Has(ts, RelationTuple(x, r, c, d))
    ensures r in Reply(ts, GetSubjectRelations(x, c, d)).names <==> Has(ts, RelationTuple(x, r, c, d))
    ensures Reply(ts, IsDocRegistered(c, d)) == YesIf(exists t :: Has(ts, t) && t.collection == c && t.doc == d)
    ensures Reply(ts, RegisterDocAtomic(x, c, d)) == YesIf(Reply(ts, IsDocRegistered(c, d)) == No)
  {
    NamesMean(ts, x, r, c, d);
    assert forall t :: t in ts && t.collection == c && t.doc == d <==> t in Of(c, d, ts);
  }

  function States(ts: set<RelationTuple>, ops: seq<Op>): set<RelationTuple>
  {
    if ops == [] then ts else Effect(States(ts, ops[..|ops| - 1]), ops[|ops| - 1])
  }

  function Replies(ts: set<RelationTuple>, ops: seq<Op>): (answers: seq<Answer>)
    ensures |answers| == |ops|
  {
    if ops == [] then []
    else Replies(ts, ops[..|ops| - 1]) + [Reply(States(ts, ops[..|ops| - 1]), ops[|ops| - 1])]
  }

  // `s` lists the members of `xs`, each once.
  predicate Lists<T(==)>(s: seq<T>, xs: set<T>)
  {
    && (forall i :: 0 <= i < |s| ==> s[i] in xs)
    && (forall x :: x in xs ==> x in s)
    && (forall i, j :: 0 <= i < j < |s| ==> s[i] != s[j])
  }

  function ToSet<T>(s: seq<T>): set<T>
  {
    set x | x in s
  }

  lemma ToSetAppend<T>(s: seq<T>, x: T)
    ensures ToSet(s + [x]) == ToSet(s) + {x}
  {
    forall y | y in ToSet(s) + {x} ensures y in s + [x] {
      if y == x { assert (s + [x])[|s|] == x; }
    }
  }

  lemma ListedSet<T>(s: seq<T>, xs: set<T>)
    requires Lists(s, xs)
    ensures ToSet(s) == xs
  {
  }

  // ----- A tuple map, keyed by storage key -----

  type TupleMap = map<Bytes, RelationTuple>

  ghost predicate Keyed(m: TupleMap)
  {
    forall k :: k in m ==> ValidTuple(m[k]) && k == StorageKey(m[k])
  }

  function Contents(m: TupleMap): set<RelationTuple>
  {
    m.Values
  }

  lemma HasByKey(m: TupleMap, t: RelationTuple)
    requires Keyed(m) && ValidTuple(t)
    ensures StorageKey(t) in m <==> t in Contents(m)
  {
    if StorageKey(t) in m {
      StorageKeyIsInjective(m[StorageKey(t)], t);
      assert m[StorageKey(t)] == t;
    }
  }

  lemma PutByKey(m: TupleMap, t: RelationTuple)
    requires Keyed(m) && ValidTuple(t)
    ensures Keyed(m[StorageKey(t) := t]) && Contents(m[StorageKey(t) := t]) == Contents(m) + {t}
  {
    var m' := m[StorageKey(t) := t];
    forall u | u in Contents(m) + {t} ensures u in Contents(m') {
      if u == t {
        assert m'[StorageKey(t)] == t;
      } else {
        var k :| k in m && m[k] == u;
        StorageKeyIsInjective(u, t);
        assert m'[k] == u;
      }
    }
  }

  lemma DeleteByKey(m: TupleMap, t: RelationTuple)
    requires Keyed(m) && ValidTuple(t)
    ensures Keyed(m - {StorageKey(t)}) && Contents(m - {StorageKey(t)}) == Contents(m) - {t}
  {
    var m' := m - {StorageKey(t)};
    forall u | u in Contents(m') ensures u in Contents(m) - {t} {
      var k :| k in m' && m'[k] == u;
      assert m[k] == u;
    }
    forall u | u in Contents(m) - {t} ensures u in Contents(m') {
      var k :| k in m && m[k] == u;
      StorageKeyIsInjective(u, t);
      assert m'[k] == u;
    }
  }

  // The keys under a document's prefix are its tuples, no more and no fewer.
  lemma DocKeys(m: TupleMap, c: Bytes, d: Bytes)
    requires Keyed(m) && ValidDocument(c, d)
    ensures forall k :: k in m ==> (DocPrefix(c, d) <= k <==> m[k] in Of(c, d, Contents(m)))
    ensures (exists k :: k in m && DocPrefix(c, d) <= k) <==> Of(c, d, Contents(m)) != {}
  {
    forall k | k in m ensures DocPrefix(c, d) <= k <==> m[k] in Of(c, d, Contents(m)) {
      DocScanIsExact(m[k], c, d);
    }
    if Of(c, d, Contents(m)) != {} {
      var t :| t in Of(c, d, Contents(m));
      var k :| k in m && m[k] == t;
      assert DocPrefix(c, d) <= k;
    }
  }

  lemma DeleteDocKeys(m: TupleMap, m': TupleMap, c: Bytes, d: Bytes)
    requires Keyed(m) && ValidDocument(c, d)
    requires m' == map k | k in m && !(DocPrefix(c, d) <= k) :: m[k]
    ensures Keyed(m') && Contents(m') == Contents(m) - Of(c, d, Contents(m))
  {
    DocKeys(m, c, d);
    forall t | t in Contents(m) - Of(c, d, Contents(m)) ensures t in Contents(m') {
      var k :| k in m && m[k] == t;
      assert k in m' && m'[k] == t;
    }
  }

  lemma ScannedDocTuples(m: TupleMap, c: Bytes, d: Bytes)
    requires Keyed(m) && ValidDocument(c, d)
    ensures (set k | k in m && DocPrefix(c, d) <= k :: m[k]) == Of(c, d, Contents(m))
  {
    DocKeys(m, c, d);
    forall t | t in Of(c, d, Contents(m)) ensures t in (set k | k in m && DocPrefix(c, d) <= k :: m[k]) {
      var k :| k in m && m[k] == t;
      assert DocPrefix(c, d) <= k;
    }
  }

  lemma ScannedRelationTuples(m: TupleMap, c: Bytes, d: Bytes, r: Bytes)
    requires Keyed(m) && ValidDocument(c, d) && ValidComponent(r)
    ensures (set k | k in m && RelationPrefix(c, d, r) <= k :: m[k]) ==
            (set t | t in Of(c, d, Contents(m)) && t.relation == r)
  {
    forall k | k in m
      ensures RelationPrefix(c, d, r) <= k <==> m[k].collection == c && m[k].doc == d && m[k].relation == r
    {
      RelationScanIsExact(m[k], c, d, r);
    }
    forall t | t in Of(c, d, Contents(m)) && t.relation == r
      ensures t in (set k | k in m && RelationPrefix(c, d, r) <= k :: m[k])
    {
      var k :| k in m && m[k] == t;
      assert RelationPrefix(c, d, r) <= k;
    }
  }

  lemma SameValues(m: TupleMap, keys: seq<Bytes>, prefix: Bytes)
    requires ToSet(keys) == set k | k in m && prefix <= k
    ensures forall i :: 0 <= i < |keys| ==> keys[i] in m
    ensures (set k | k in keys :: m[k]) == (set k | k in m && prefix <= k :: m[k])
  {
    assert forall k :: k in keys <==> k in ToSet(keys);
    assert forall k :: k in ToSet(keys) <==> k in m && prefix <= k;
  }

  // Tuples of distinct keys differ, so gathering by key repeats nothing.
  method Gather(m: TupleMap, keys: seq<Bytes>) returns (found: seq<RelationTuple>)
    requires Keyed(m) && forall i :: 0 <= i < |keys| ==> keys[i] in m
    requires forall i, j :: 0 <= i < j < |keys| ==> keys[i] != keys[j]
    ensures Lists(found, set k | k in keys :: m[k])
    ensures |found| == |keys| && forall i :: 0 <= i < |keys| ==> found[i] == m[keys[i]]
  {
    found := [];
    for n := 0 to |keys|
      invariant |found| == n && forall i :: 0 <= i < n ==> found[i] == m[keys[i]]
    {
      found := found + [m[keys[n]]];
    }
    forall i, j | 0 <= i < j < |found| ensures found[i] != found[j] {
      assert keys[i] == StorageKey(found[i]) && keys[j] == StorageKey(found[j]);
    }
    forall t | t in (set k | k in keys :: m[k]) ensures t in found {
      var k :| k in keys && m[k] == t;
      var i :| 0 <= i < |keys| && keys[i] == k;
      assert found[i] == t;
    }
  }

  method SubjectsOf(found: seq<RelationTuple>, ghost ts: set<RelationTuple>, c: Bytes, d: Bytes, r: Bytes)
    returns (subjects: seq<Bytes>)
    requires Lists(found, set t | t in Of(c, d, ts) && t.relation == r)
    ensures Lists(subjects, Subjects(ts, c, d, r))
  {
    subjects := [];
    for n := 0 to |found|
      invariant |subjects| == n && forall i :: 0 <= i < n ==> subjects[i] == found[i].subject
    {
      subjects := subjects + [found[n].subject];
    }
    assert forall i :: 0 <= i < |found| ==> found[i] == RelationTuple(subjects[i], r, c, d);
    forall s | s in Subjects(ts, c, d, r) ensures s in subjects {
      var t :| t in Of(c, d, ts) && t.relation == r && t.subject == s;
      assert t in found;
      var i :| 0 <= i < |found| && found[i] == t;
      assert subjects[i] == s;
    }
  }

  method RelationsOf(found: seq<RelationTuple>, ghost ts: set<RelationTuple>, subject: Bytes, c: Bytes, d: Bytes)
    returns (relations: seq<Bytes>)
    requires Lists(found, Of(c, d, ts))
    ensures Lists(relations, Relations(ts, subject, c, d))
  {
    relations := [];
    for n := 0 to |found|
      invariant forall r :: r in relations ==> RelationTuple(subject, r, c, d) in found[..n]
      invariant forall i :: 0 <= i < n && found[i].subject == subject ==> found[i].relation in relations
      invariant forall i, j :: 0 <= i < j < |relations| ==> relations[i] != relations[j]
    {
      assert found[..n + 1] == found[..n] + [found[n]];
      if found[n].subject == subject {
        assert found[n] == RelationTuple(subject, found[n].relation, c, d);
        assert found[n] !in found[..n];
        relations := relations + [found[n].relation];
      }
    }
    forall r | r in Relations(ts, subject, c, d) ensures r in relations {
      var t :| t in Of(c, d, ts) && t.subject == subject && t.relation == r;
      var i :| 0 <= i < |found| && found[i] == t;
    }
    forall i | 0 <= i < |relations| ensures relations[i] in Relations(ts, subject, c, d) {
      var t := RelationTuple(subject, relations[i], c, d);
      assert t in found[..|found|];
      assert t in Of(c, d, ts);
    }
  }

  // ----- The in-memory store -----

  class MemoryAcpStore {
    var tuples: TupleMap

    ghost predicate Valid()
      reads this
    {
      Keyed(tuples)
    }

    function Held(): set<RelationTuple>
      reads this
    {
      Contents(tuples)
    }

    constructor ()
      ensures Valid() && Held() == {}
    {
      tuples := map[];
    }

    method PutTuple(t: RelationTuple)
      requires Valid() && ValidTuple(t)
      modifies this
      ensures Valid() && Held() == old(Held()) + {t}
    {
      PutByKey(tuples, t);
      tuples := tuples[StorageKey(t) := t];
    }

    method DeleteTuple(t: RelationTuple)
      requires Valid() && ValidTuple(t)
      modifies this
      ensures Valid() && Held() == old(Held()) - {t}
    {
      DeleteByKey(tuples, t);
      tuples := tuples - {StorageKey(t)};
    }

    method HasTuple(t: RelationTuple) returns (has: bool)
      requires Valid() && ValidTuple(t)
      ensures has <==> t in Held()
    {
      HasByKey(tuples, t);
      has := StorageKey(t) in tuples;
    }

    // The map's entries whose key starts with `prefix`, in whatever order the
    // hash map yields them.
    method Filtered(prefix: Bytes) returns (found: seq<RelationTuple>)
      requires Valid()
      ensures Lists(found, set k | k in tuples && prefix <= k :: tuples[k])
    {
      var left := set k | k in tuples && prefix <= k;
      ghost var all := left;
      var keys: seq<Bytes> := [];
      while left != {}
        invariant left <= all && ToSet(keys) == all - left
        invariant forall i, j :: 0 <= i < j < |keys| ==> keys[i] != keys[j]
        decreases left
      {
        var k :| k in left;
        assert k !in ToSet(keys);
        ToSetAppend(keys, k);
        keys := keys + [k];
        left := left - {k};
      }
      assert forall i :: 0 <= i < |keys| ==> keys[i] in ToSet(keys);
      found := Gather(tuples, keys);
      SameValues(tuples, keys, prefix);
    }

    method GetDocTuples(c: Bytes, d: Bytes) returns (ok: bool, found: seq<RelationTuple>)
      requires Valid()
      ensures ok <==> ValidDocument(c, d)
      ensures ok ==> Lists(found, Of(c, d, Held()))
    {
      ok, found := ValidDocument(c, d), [];
      if ok {
        found := Filtered(DocPrefix(c, d));
        ScannedDocTuples(tuples, c, d);
      }
    }

    method GetRelationSubjects(c: Bytes, d: Bytes, r: Bytes) returns (ok: bool, subjects: seq<Bytes>)
      requires Valid()
      ensures ok <==> ValidDocument(c, d) && ValidComponent(r)
      ensures ok ==> Lists(subjects, Subjects(Held(), c, d, r))
      ensures ok ==> forall x :: x in subjects <==> RelationTuple(x, r, c, d) in Held()
    {
      ok, subjects := ValidDocument(c, d) && ValidComponent(r), [];
      if ok {
        var found := Filtered(RelationPrefix(c, d, r));
        ScannedRelationTuples(tuples, c, d, r);
        subjects := SubjectsOf(found, Held(), c, d, r);
        forall x ensures x in Subjects(Held(), c, d, r) <==> RelationTuple(x, r, c, d) in Held() {
          NamesMean(Held(), x, r, c, d);
        }
      }
    }

    method GetSubjectRelations(subject: Bytes, c: Bytes, d: Bytes) returns (ok: bool, relations: seq<Bytes>)
      requires Valid()
      ensures ok <==> ValidDocument(c, d)
      ensures ok ==> Lists(relations, Relations(Held(), subject, c, d))
      ensures ok ==> forall r :: r in relations <==> RelationTuple(subject, r, c, d) in Held()
    {
      ok, relations := ValidDocument(c, d), [];
      if ok {
        var found := Filtered(DocPrefix(c, d));
        ScannedDocTuples(tuples, c, d);
        relations := RelationsOf(found, Held(), subject, c, d);
        forall r ensures r in Relations(Held(), subject, c, d) <==> RelationTuple(subject, r, c, d) in Held() {
          NamesMean(Held(), subject, r, c, d);
        }
      }
    }

    method DeleteDocTuples(c: Bytes, d: Bytes) returns (ok: bool)
      requires Valid()
      modifies this
      ensures Valid() && (ok <==> ValidDocument(c, d))
      ensures Held() == if ok then old(Held()) - Of(c, d, old(Held())) else old(Held())
    {
      ok := ValidDocument(c, d);
      if ok {
        var kept := map k | k in tuples && !(DocPrefix(c, d) <= k) :: tuples[k];
        DeleteDocKeys(tuples, kept, c, d);
        tuples := kept;
      }
    }

    method IsDocRegistered(c: Bytes, d: Bytes) returns (ok: bool, registered: bool)
      requires Valid()
      ensures ok <==> ValidDocument(c, d)
      ensures ok ==> (registered <==> Of(c, d, Held()) != {})
    {
      ok, registered := ValidDocument(c, d), false;
      if ok {
        DocKeys(tuples, c, d);
        registered := exists k :: k in tuples && DocPrefix(c, d) <= k;
      }
    }

    method RegisterDocAtomic(owner: Bytes, c: Bytes, d: Bytes) returns (ok: bool, won: bool)
      requires Valid()
      modifies this
      ensures Valid() && (ok <==> ValidDocument(c, d))
      ensures ok ==> (won <==> Of(c, d, old(Held())) == {})
      ensures Held() == if ok && won then old(Held()) + {OwnerTuple(owner, c, d)} else old(Held())
    {
      ok, won := ValidDocument(c, d), false;
      if ok {
        DocKeys(tuples, c, d);
        won := !exists k :: k in tuples && DocPrefix(c, d) <= k;
        if won {
          var t := OwnerTuple(owner, c, d);
          PutByKey(tuples, t);
          tuples := tuples[StorageKey(t) := t];
        }
      }
    }

    method Execute(op: Op) returns (answer: Answer)
      requires Valid() && WellFormed(op)
      modifies this
      ensures Valid() && Held() == Effect(old(Held()), op) && answer == Reply(old(Held()), op)
    {
      match op
      case PutTuple(t) => PutTuple(t); answer := Done;
      case DeleteTuple(t) => DeleteTuple(t); answer := Done;
      case HasTuple(t) => var b := HasTuple(t); answer := YesIf(b);
      case GetDocTuples(c, d) =>
        var ok, found := GetDocTuples(c, d);
        if ok { ListedSet(found, Of(c, d, Held())); }
        answer := if ok then Tuples(ToSet(found)) else InvalidPath;
      case GetRelationSubjects(c, d, r) =>
        var ok, found := GetRelationSubjects(c, d, r);
        if ok { ListedSet(found, Subjects(Held(), c, d, r)); }
        answer := if ok then Names(ToSet(found)) else InvalidPath;
      case GetSubjectRelations(s, c, d) =>
        var ok, found := GetSubjectRelations(s, c, d);
        if ok { ListedSet(found, Relations(Held(), s, c, d)); }
        answer := if ok then Names(ToSet(found)) else InvalidPath;
      case DeleteDocTuples(c, d) =>
        var ok := DeleteDocTuples(c, d);
        answer := if ok then Done else InvalidPath;
      case IsDocRegistered(c, d) =>
        var ok, b := IsDocRegistered(c, d);
        answer := if ok then YesIf(b) else InvalidPath;
      case RegisterDocAtomic(o, c, d) =>
        var ok, b := RegisterDocAtomic(o, c, d);
        answer := if ok then YesIf(b) else InvalidPath;
    }
  }

  // ----- The persistent store -----

  // What one key of the ACP namespace holds.
  datatype Entry = TupleEntry(tuple: RelationTuple) | OwedEntry(owed: PendingRegistration)

  type KeyValues = map<Bytes, Entry>

  ghost predicate WellKeyed(kv: KeyValues)
  {
    forall k :: k in kv ==>
      match kv[k]
      case TupleEntry(t) => ValidTuple(t) && k == StorageKey(t)
      case OwedEntry(r) => Recordable(r) && k == KeyOf(r)
  }

  function TuplesIn(kv: KeyValues): TupleMap
  {
    map k | k in kv && kv[k].TupleEntry? :: kv[k].tuple
  }

  function OwedIn(kv: KeyValues): map<Bytes, PendingRegistration>
  {
    map k | k in kv && kv[k].OwedEntry? :: kv[k].owed
  }

  // Under a document's or a relation's prefix there is nothing but tuples.
  lemma ScansMeetOnlyTuples(kv: KeyValues, prefix: Bytes)
    requires WellKeyed(kv) && TUPLE_PREFIX <= prefix
    ensures forall k :: k in kv && prefix <= k ==> kv[k].TupleEntry?
  {
    forall k | k in kv && prefix <= k ensures kv[k].TupleEntry? {
      assert k[4] == prefix[4] == TUPLE_PREFIX[4];
      if kv[k].OwedEntry? {
        FamiliesNeverMeet([], [], RelationTuple([], [], [], []), kv[k].owed.policy, kv[k].owed.resource, kv[k].owed.doc);
      }
    }
  }

  lemma TupleKeyHoldsNoRecord(kv: KeyValues, t: RelationTuple)
    requires WellKeyed(kv)
    ensures StorageKey(t) in kv ==> kv[StorageKey(t)].TupleEntry?
  {
    if StorageKey(t) in kv && kv[StorageKey(t)].OwedEntry? {
      var r := kv[StorageKey(t)].owed;
      FamiliesNeverMeet(t.collection, t.doc, t, r.policy, r.resource, r.doc);
    }
  }

  lemma PutEntry(kv: KeyValues, t: RelationTuple)
    requires WellKeyed(kv) && ValidTuple(t)
    ensures var kv' := kv[StorageKey(t) := TupleEntry(t)];
            && WellKeyed(kv') && OwedIn(kv') == OwedIn(kv)
            && Contents(TuplesIn(kv')) == Contents(TuplesIn(kv)) + {t}
  {
    PutByKey(TuplesIn(kv), t);
    TupleKeyHoldsNoRecord(kv, t);
    PutEntryMaps(kv, StorageKey(t), t);
  }

  lemma PutEntryMaps(kv: KeyValues, k: Bytes, t: RelationTuple)
    requires k in kv ==> kv[k].TupleEntry?
    ensures TuplesIn(kv[k := TupleEntry(t)]) == TuplesIn(kv)[k := t]
    ensures OwedIn(kv[k := TupleEntry(t)]) == OwedIn(kv)
  {
  }

  lemma DeleteEntry(kv: KeyValues, t: RelationTuple)
    requires WellKeyed(kv) && ValidTuple(t)
    ensures var kv' := kv - {StorageKey(t)};
            && WellKeyed(kv') && OwedIn(kv') == OwedIn(kv)
            && Contents(TuplesIn(kv')) == Contents(TuplesIn(kv)) - {t}
  {
    DeleteByKey(TuplesIn(kv), t);
    TupleKeyHoldsNoRecord(kv, t);
    DropEntryMaps(kv, {StorageKey(t)});
  }

  lemma DropEntryMaps(kv: KeyValues, keys: set<Bytes>)
    requires forall k :: k in keys && k in kv ==> kv[k].TupleEntry?
    ensures TuplesIn(kv - keys) == TuplesIn(kv) - keys
    ensures OwedIn(kv - keys) == OwedIn(kv)
  {
  }

  lemma DeleteDocEntries(kv: KeyValues, kv': KeyValues, c: Bytes, d: Bytes)
    requires WellKeyed(kv) && ValidDocument(c, d)
    requires kv' == kv - set k | k in kv && DocPrefix(c, d) <= k
    ensures WellKeyed(kv') && OwedIn(kv') == OwedIn(kv)
    ensures Contents(TuplesIn(kv')) == Contents(TuplesIn(kv)) - Of(c, d, Contents(TuplesIn(kv)))
  {
    ScansMeetOnlyTuples(kv, DocPrefix(c, d));
    DropEntryMaps(kv, set k | k in kv && DocPrefix(c, d) <= k);
    var m := TuplesIn(kv);
    assert TuplesIn(kv') == map k | k in m && !(DocPrefix(c, d) <= k) :: m[k];
    DeleteDocKeys(m, TuplesIn(kv'), c, d);
  }

  class PersistentAcpStore {
    var kv: KeyValues

    ghost predicate Valid()
      reads this
    {
      WellKeyed(kv)
    }

    function Held(): set<RelationTuple>
      reads this
    {
      Contents(TuplesIn(kv))
    }

    constructor (kv: KeyValues)
      requires WellKeyed(kv)
      ensures Valid() && this.kv == kv
    {
      this.kv := kv;
    }

    method PutTuple(t: RelationTuple)
      requires Valid() && ValidTuple(t)
      modifies this
      ensures Valid() && Held() == old(Held()) + {t} && OwedIn(kv) == old(OwedIn(kv))
    {
      PutEntry(kv, t);
      kv := kv[StorageKey(t) := TupleEntry(t)];
    }

    method DeleteTuple(t: RelationTuple)
      requires Valid() && ValidTuple(t)
      modifies this
      ensures Valid() && Held() == old(Held()) - {t} && OwedIn(kv) == old(OwedIn(kv))
    {
      DeleteEntry(kv, t);
      kv := kv - {StorageKey(t)};
    }

    method HasTuple(t: RelationTuple) returns (has: bool)
      requires Valid() && ValidTuple(t)
      ensures has <==> t in Held()
    {
      HasByKey(TuplesIn(kv), t);
      TupleKeyHoldsNoRecord(kv, t);
      has := StorageKey(t) in kv;
    }

    // One prefix scan: `while let Some(kv) = iter.next()`, each turn yielding
    // the least key not yet seen.
    method Scan(prefix: Bytes) returns (keys: seq<Bytes>)
      ensures Increasing(keys) && ToSet(keys) == (set k | k in kv && prefix <= k)
    {
      var left := set k | k in kv && prefix <= k;
      ghost var all := left;
      keys := [];
      while left != {}
        invariant left <= all && ToSet(keys) == all - left
        invariant Increasing(keys)
        invariant forall i, k :: 0 <= i < |keys| && k in left ==> Less(keys[i], k)
        decreases left
      {
        var k := Least(left);
        forall j | j in left - {k} ensures Less(k, j) {
          assert j in left && AtMost(k, j);
          LessTotal(k, j);
        }
        ToSetAppend(keys, k);
        keys := keys + [k];
        left := left - {k};
      }
    }

    method ScanTuples(prefix: Bytes) returns (found: seq<RelationTuple>)
      requires Valid() && TUPLE_PREFIX <= prefix
      ensures Lists(found, set k | k in TuplesIn(kv) && prefix <= k :: TuplesIn(kv)[k])
    {
      ScansMeetOnlyTuples(kv, prefix);
      var keys := Scan(prefix);
      forall i, j | 0 <= i < j < |keys| ensures keys[i] != keys[j] {
        LessIrreflexive(keys[i]);
      }
      var tuples := TuplesIn(kv);
      assert forall i :: 0 <= i < |keys| ==> keys[i] in ToSet(keys);
      found := Gather(tuples, keys);
      SameValues(tuples, keys, prefix);
    }

    method GetDocTuples(c: Bytes, d: Bytes) returns (ok: bool, found: seq<RelationTuple>)
      requires Valid()
      ensures ok <==> ValidDocument(c, d)
      ensures ok ==> Lists(found, Of(c, d, Held()))
    {
      ok, found := ValidDocument(c, d), [];
      if ok {
        found := ScanTuples(DocPrefix(c, d));
        ScannedDocTuples(TuplesIn(kv), c, d);
      }
    }

    method GetRelationSubjects(c: Bytes, d: Bytes, r: Bytes) returns (ok: bool, subjects: seq<Bytes>)
      requires Valid()
      ensures ok <==> ValidDocument(c, d) && ValidComponent(r)
      ensures ok ==> Lists(subjects, Subjects(Held(), c, d, r))
      ensures ok ==> forall x :: x in subjects <==> RelationTuple(x, r, c, d) in Held()
    {
      ok, subjects := ValidDocument(c, d) && ValidComponent(r), [];
      if ok {
        var found := ScanTuples(RelationPrefix(c, d, r));
        ScannedRelationTuples(TuplesIn(kv), c, d, r);
        subjects := SubjectsOf(found, Held(), c, d, r);
        forall x ensures x in Subjects(Held(), c, d, r) <==> RelationTuple(x, r, c, d) in Held() {
          NamesMean(Held(), x, r, c, d);
        }
      }
    }

    method GetSubjectRelations(subject: Bytes, c: Bytes, d: Bytes) returns (ok: bool, relations: seq<Bytes>)
      requires Valid()
      ensures ok <==> ValidDocument(c, d)
      ensures ok ==> Lists(relations, Relations(Held(), subject, c, d))
      ensures ok ==> forall r :: r in relations <==> RelationTuple(subject, r, c, d) in Held()
    {
      ok, relations := ValidDocument(c, d), [];
      if ok {
        var found := ScanTuples(DocPrefix(c, d));
        ScannedDocTuples(TuplesIn(kv), c, d);
        relations := RelationsOf(found, Held(), subject, c, d);
        forall r ensures r in Relations(Held(), subject, c, d) <==> RelationTuple(subject, r, c, d) in Held() {
          NamesMean(Held(), subject, r, c, d);
        }
      }
    }

    // The keys are gathered first and deleted one by one.
    method DeleteDocTuples(c: Bytes, d: Bytes) returns (ok: bool)
      requires Valid()
      modifies this
      ensures Valid() && (ok <==> ValidDocument(c, d)) && OwedIn(kv) == old(OwedIn(kv))
      ensures Held() == if ok then old(Held()) - Of(c, d, old(Held())) else old(Held())
    {
      ok := ValidDocument(c, d);
      if ok {
        var prefix := DocPrefix(c, d);
        var keys := Scan(prefix);
        var n := 0;
        while n < |keys|
          invariant 0 <= n <= |keys|
          invariant kv == old(kv) - ToSet(keys[..n])
        {
          kv := kv - {keys[n]};
          assert keys[..n + 1] == keys[..n] + [keys[n]];
          ToSetAppend(keys[..n], keys[n]);
          n := n + 1;
        }
        assert keys[..n] == keys;
        DeleteDocEntries(old(kv), kv, c, d);
      }
    }

    method IsDocRegistered(c: Bytes, d: Bytes) returns (ok: bool, registered: bool)
      requires Valid()
      ensures ok <==> ValidDocument(c, d)
      ensures ok ==> (registered <==> Of(c, d, Held()) != {})
    {
      ok, registered := ValidDocument(c, d), false;
      if ok {
        registered := HasKeyUnder(c, d);
      }
    }

    method HasKeyUnder(c: Bytes, d: Bytes) returns (found: bool)
      requires Valid() && ValidDocument(c, d)
      ensures found <==> Of(c, d, Held()) != {}
    {
      var prefix := DocPrefix(c, d);
      ScansMeetOnlyTuples(kv, prefix);
      DocKeys(TuplesIn(kv), c, d);
      var keys := Scan(prefix);
      found := keys != [];
      if found {
        assert keys[0] in ToSet(keys);
        assert keys[0] in TuplesIn(kv) && prefix <= keys[0];
      } else {
        assert forall k :: k in TuplesIn(kv) && prefix <= k ==> k in ToSet(keys);
      }
    }

    method RegisterDocAtomic(owner: Bytes, c: Bytes, d: Bytes) returns (ok: bool, won: bool)
      requires Valid()
      modifies this
      ensures Valid() && (ok <==> ValidDocument(c, d)) && OwedIn(kv) == old(OwedIn(kv))
      ensures ok ==> (won <==> Of(c, d, old(Held())) == {})
      ensures Held() == if ok && won then old(Held()) + {OwnerTuple(owner, c, d)} else old(Held())
    {
      ok, won := ValidDocument(c, d), false;
      if ok {
        var alreadyRegistered := HasKeyUnder(c, d);
        won := !alreadyRegistered;
        if won {
          PutTuple(OwnerTuple(owner, c, d));
        }
      }
    }

    method Execute(op: Op) returns (answer: Answer)
      requires Valid() && WellFormed(op)
      modifies this
      ensures Valid() && Held() == Effect(old(Held()), op) && answer == Reply(old(Held()), op)
      ensures OwedIn(kv) == old(OwedIn(kv))
    {
      match op
      case PutTuple(t) => PutTuple(t); answer := Done;
      case DeleteTuple(t) => DeleteTuple(t); answer := Done;
      case HasTuple(t) => var b := HasTuple(t); answer := YesIf(b);
      case GetDocTuples(c, d) =>
        var ok, found := GetDocTuples(c, d);
        if ok { ListedSet(found, Of(c, d, Held())); }
        answer := if ok then Tuples(ToSet(found)) else InvalidPath;
      case GetRelationSubjects(c, d, r) =>
        var ok, found := GetRelationSubjects(c, d, r);
        if ok { ListedSet(found, Subjects(Held(), c, d, r)); }
        answer := if ok then Names(ToSet(found)) else InvalidPath;
      case GetSubjectRelations(s, c, d) =>
        var ok, found := GetSubjectRelations(s, c, d);
        if ok { ListedSet(found, Relations(Held(), s, c, d)); }
        answer := if ok then Names(ToSet(found)) else InvalidPath;
      case DeleteDocTuples(c, d) =>
        var ok := DeleteDocTuples(c, d);
        answer := if ok then Done else InvalidPath;
      case IsDocRegistered(c, d) =>
        var ok, b := IsDocRegistered(c, d);
        answer := if ok then YesIf(b) else InvalidPath;
      case RegisterDocAtomic(o, c, d) =>
        var ok, b := RegisterDocAtomic(o, c, d);
        answer := if ok then YesIf(b) else InvalidPath;
    }
  }

  // ----- The two stores agree -----

  // Run any sequence of operations on both stores, starting from the same
  // tuples: they give the same answers, those of the abstract set, and end
  // with the same tuples.
  method RunOnBoth(memory: MemoryAcpStore, persistent: PersistentAcpStore, ops: seq<Op>)
    returns (fromMemory: seq<Answer>, fromPersistent: seq<Answer>)
    requires memory.Valid() && persistent.Valid() && memory.Held() == persistent.Held()
    requires forall i :: 0 <= i < |ops| ==> WellFormed(ops[i])
    modifies memory, persistent
    ensures fromMemory == fromPersistent == Replies(old(memory.Held()), ops)
    ensures memory.Held() == persistent.Held() == States(old(memory.Held()), ops)
    ensures OwedIn(persistent.kv) == old(OwedIn(persistent.kv))
  {
    fromMemory, fromPersistent := [], [];
    ghost var start := memory.Held();
    var n := 0;
    while n < |ops|
      invariant 0 <= n <= |ops| && memory.Valid() && persistent.Valid()
      invariant memory.Held() == persistent.Held() == States(start, ops[..n])
      invariant fromMemory == fromPersistent == Replies(start, ops[..n])
      invariant OwedIn(persistent.kv) == old(OwedIn(persistent.kv))
    {
      assert ops[..n + 1][..n] == ops[..n];
      var a := memory.Execute(ops[n]);
      var b := persistent.Execute(ops[n]);
      fromMemory, fromPersistent := fromMemory + [a], fromPersistent + [b];
      n := n + 1;
    }
    assert ops[..n] == ops;
  }
}
