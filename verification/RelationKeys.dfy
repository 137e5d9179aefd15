// Relation tuples and the keys they are stored under
// (crates/acp/src/relation.rs).

module RelationKeys {
  import opened Text

  const OWNER_RELATION: Bytes := "owner"
  const TUPLE_PREFIX: Bytes := "/acp/"
  const WILDCARD: Bytes := "*"

  datatype RelationTuple = RelationTuple(subject: Bytes, relation: Bytes, collection: Bytes, doc: Bytes)

  // What `validate_path_component` accepts.
  predicate ValidComponent(value: Bytes)
  {
    value != [] && '/' !in value && '\\' !in value && '\0' !in value
  }

  // It refuses exactly the empty string and whatever holds a separator, a
  // backslash or a zero byte.
  lemma ComponentsRefusedIff(value: Bytes)
    ensures !ValidComponent(value) <==> value == "" || exists a, c, b :: value == a + [c] + b && c in {'/', '\\', '\0'}
  {
    if value != "" && !ValidComponent(value) {
      var c :| c in value && c in {'/', '\\', '\0'};
      var i :| 0 <= i < |value| && value[i] == c;
      assert value == value[..i] + [c] + value[i + 1..];
    }
    if a, c, b :| value == a + [c] + b && c in {'/', '\\', '\0'} {
      assert value[|a|] == c;
    }
  }

  // What `try_new` accepts: the subject is not a path component.
  predicate ValidTuple(t: RelationTuple)
  {
    ValidComponent(t.relation) && ValidComponent(t.collection) && ValidComponent(t.doc)
  }

  predicate ValidDocument(collection: Bytes, doc: Bytes)
  {
    ValidComponent(collection) && ValidComponent(doc)
  }

  function OwnerTuple(subject: Bytes, collection: Bytes, doc: Bytes): RelationTuple
  {
    RelationTuple(subject, OWNER_RELATION, collection, doc)
  }

  function StorageKey(t: RelationTuple): Bytes
  {
    TUPLE_PREFIX + (t.collection + "/" + (t.doc + "/" + (t.relation + "/" + t.subject)))
  }

  function DocPrefix(collection: Bytes, doc: Bytes): Bytes
  {
    TUPLE_PREFIX + (collection + "/" + (doc + "/" + []))
  }

  function RelationPrefix(collection: Bytes, doc: Bytes, relation: Bytes): Bytes
  {
    TUPLE_PREFIX + (collection + "/" + (doc + "/" + (relation + "/" + [])))
  }

  function Of(collection: Bytes, doc: Bytes, ts: set<RelationTuple>): set<RelationTuple>
  {
    set t | t in ts && t.collection == collection && t.doc == doc
  }

  // A document's scan meets exactly that document's tuples.
  lemma DocScanIsExact(t: RelationTuple, collection: Bytes, doc: Bytes)
    requires ValidTuple(t) && ValidDocument(collection, doc)
    ensures DocPrefix(collection, doc) <= StorageKey(t) <==> t.collection == collection && t.doc == doc
  {
    var mine := doc + "/" + [];
    var its := t.doc + "/" + (t.relation + "/" + t.subject);
    PrefixCancel(TUPLE_PREFIX, collection + "/" + mine, t.collection + "/" + its);
    PrefixBySlash(collection, mine, t.collection, its);
    PrefixBySlash(doc, [], t.doc, t.relation + "/" + t.subject);
  }

  // A relation's scan meets exactly the tuples of that document and relation.
  lemma RelationScanIsExact(t: RelationTuple, collection: Bytes, doc: Bytes, relation: Bytes)
    requires ValidTuple(t) && ValidDocument(collection, doc) && ValidComponent(relation)
    ensures RelationPrefix(collection, doc, relation) <= StorageKey(t) <==>
            t.collection == collection && t.doc == doc && t.relation == relation
  {
    var mine := relation + "/" + [];
    var its := t.relation + "/" + t.subject;
    PrefixCancel(TUPLE_PREFIX, collection + "/" + (doc + "/" + mine), t.collection + "/" + (t.doc + "/" + its));
    PrefixBySlash(collection, doc + "/" + mine, t.collection, t.doc + "/" + its);
    PrefixBySlash(doc, mine, t.doc, its);
    PrefixBySlash(relation, [], t.relation, t.subject);
  }

  // One key, one tuple.
  lemma StorageKeyIsInjective(t: RelationTuple, u: RelationTuple)
    requires ValidTuple(t) && ValidTuple(u)
    ensures StorageKey(t) == StorageKey(u) <==> t == u
  {
    if StorageKey(t) == StorageKey(u) {
      var rel, rel' := t.relation + "/" + t.subject, u.relation + "/" + u.subject;
      PrefixCancel(TUPLE_PREFIX, t.collection + "/" + (t.doc + "/" + rel), u.collection + "/" + (u.doc + "/" + rel'));
      PrefixBySlash(t.collection, t.doc + "/" + rel, u.collection, u.doc + "/" + rel');
      PrefixBySlash(t.doc, rel, u.doc, rel');
      PrefixBySlash(t.relation, t.subject, u.relation, u.subject);
      assert |t.subject| == |u.subject|;
    }
  }

  // Validation is what buys that: a relation holding a separator shares its
  // key with a tuple of the relation before the separator.
  lemma UnvalidatedKeysCollide(relation: Bytes, a: Bytes, b: Bytes, collection: Bytes, doc: Bytes)
    ensures var t := RelationTuple(b, relation + "/" + a, collection, doc);
            var u := RelationTuple(a + "/" + b, relation, collection, doc);
            !ValidTuple(t) && t != u && StorageKey(t) == StorageKey(u)
  {
    assert (relation + "/" + a)[|relation|] == '/';
    assert (relation + "/" + a) + "/" + b == relation + "/" + (a + "/" + b);
  }

  // Two documents' scans share no key at all, stored or not.
  lemma DocScansAreDisjoint(key: Bytes, c1: Bytes, d1: Bytes, c2: Bytes, d2: Bytes)
    requires ValidDocument(c1, d1) && ValidDocument(c2, d2)
    requires DocPrefix(c1, d1) <= key && DocPrefix(c2, d2) <= key
    ensures c1 == c2 && d1 == d2
  {
    var p, q := DocPrefix(c1, d1), DocPrefix(c2, d2);
    var r1, r2 := key[|p|..], key[|q|..];
    assert key == TUPLE_PREFIX + (c1 + "/" + (d1 + "/" + r1));
    assert key == TUPLE_PREFIX + (c2 + "/" + (d2 + "/" + r2));
    PrefixCancel(TUPLE_PREFIX, c1 + "/" + (d1 + "/" + r1), c2 + "/" + (d2 + "/" + r2));
    PrefixBySlash(c1, d1 + "/" + r1, c2, d2 + "/" + r2);
    PrefixBySlash(d1, r1, d2, r2);
  }

  // `namespaced_collection`: the policy's own share of a collection.
  function NamespacedCollection(policy: Bytes, collection: Bytes): Bytes
  {
    policy + ":" + collection
  }

  // `split` is the part of `longer` that another policy could read as the
  // start of its collection name.
  predicate Straddles(shorter: Bytes, itsCollection: Bytes, longer: Bytes, collection: Bytes, split: Bytes)
  {
    longer == shorter + ":" + split && itsCollection == split + ":" + collection
  }

  // Namespacing by policy isolates policies except exactly here: two different
  // pairs share a namespace if and only if one policy ID continues the other
  // past a colon and the other's collection name takes up the rest.
  lemma NamespaceClash(p: Bytes, c: Bytes, p': Bytes, c': Bytes)
    ensures NamespacedCollection(p, c) == NamespacedCollection(p', c') && (p, c) != (p', c') <==>
            exists split :: Straddles(p, c, p', c', split) || Straddles(p', c', p, c, split)
  {
    var x, y := NamespacedCollection(p, c), NamespacedCollection(p', c');
    if x == y && (p, c) != (p', c') {
      if |p| <= |p'| {
        NamespaceClashSplit(p, c, p', c');
      } else {
        NamespaceClashSplit(p', c', p, c);
      }
    }
    forall split | Straddles(p, c, p', c', split) || Straddles(p', c', p, c, split)
      ensures x == y && (p, c) != (p', c')
    {
      if Straddles(p, c, p', c', split) {
        assert x == p + ":" + (split + ":" + c') == y;
      } else {
        assert y == p' + ":" + (split + ":" + c) == x;
      }
    }
  }

  lemma NamespaceClashSplit(p: Bytes, c: Bytes, p': Bytes, c': Bytes)
    requires NamespacedCollection(p, c) == NamespacedCollection(p', c') && (p, c) != (p', c')
    requires |p| <= |p'|
    ensures exists split :: Straddles(p, c, p', c', split)
  {
    var x, y := NamespacedCollection(p, c), NamespacedCollection(p', c');
    assert p == x[..|p|] == y[..|p|] == p'[..|p|];
    assert x[|p|] == ':' && c == x[|p| + 1..] && c' == y[|p'| + 1..];
    assert p != p';
    assert y[|p|] == p'[|p|];
    var split := p'[|p| + 1..];
    assert p' == p + ":" + split;
    assert y == p + ":" + (split + ":" + c');
    assert c == split + ":" + c';
    assert Straddles(p, c, p', c', split);
  }

  // No colon in a policy ID, no clash.
  lemma NamespacesAreIsolated(p: Bytes, c: Bytes, p': Bytes, c': Bytes)
    requires ':' !in p && ':' !in p'
    ensures NamespacedCollection(p, c) == NamespacedCollection(p', c') <==> p == p' && c == c'
  {
    forall split ensures ':' in p + ":" + split && ':' in p' + ":" + split {
      assert (p + ":" + split)[|p|] == ':' && (p' + ":" + split)[|p'|] == ':';
    }
    if NamespacedCollection(p, c) == NamespacedCollection(p', c') && (p, c) != (p', c') {
      NamespaceClash(p, c, p', c');
    }
  }
}
