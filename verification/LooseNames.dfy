// Relation names nobody validated (crates/acp/src/local.rs, lines 286 and 359,
// build tuples without validation; crates/acp/tests/local_tests.rs, lines 394-420,
// leave it to the caller). The documents are registered, so their names are
// validated. For which names do the two stores still agree, and is the owner read
// from a scan still the owner?

module LooseNames {
  import opened Options
  import opened Text
  import opened RelationKeys
  import opened TupleStores
  import opened Ownership

  // Tuples of validated documents under their keys, whatever their relations.
  ghost predicate Loose(m: TupleMap)
  {
    forall k :: k in m ==> k == StorageKey(m[k]) && ValidDocument(m[k].collection, m[k].doc)
  }

  predicate Below(relation: Bytes, name: Bytes)
  {
    relation + "/" <= name
  }

  // ----- Keys -----

  lemma LooseDocScan(t: RelationTuple, c: Bytes, d: Bytes)
    requires ValidDocument(t.collection, t.doc) && ValidDocument(c, d)
    ensures DocPrefix(c, d) <= StorageKey(t) <==> t.collection == c && t.doc == d
  {
    var mine := d + "/" + [];
    var its := t.doc + "/" + (t.relation + "/" + t.subject);
    PrefixCancel(TUPLE_PREFIX, c + "/" + mine, t.collection + "/" + its);
    PrefixBySlash(c, mine, t.collection, its);
    PrefixBySlash(d, [], t.doc, t.relation + "/" + t.subject);
  }

  // A relation's scan also meets the names below it.
  lemma LooseRelationScan(t: RelationTuple, c: Bytes, d: Bytes, r: Bytes)
    requires ValidDocument(t.collection, t.doc) && ValidDocument(c, d) && ValidComponent(r)
    ensures RelationPrefix(c, d, r) <= StorageKey(t) <==>
            t.collection == c && t.doc == d && (t.relation == r || Below(r, t.relation))
  {
    var mine := r + "/" + [];
    var its := t.relation + "/" + t.subject;
    PrefixCancel(TUPLE_PREFIX, c + "/" + (d + "/" + mine), t.collection + "/" + (t.doc + "/" + its));
    PrefixBySlash(c, d + "/" + mine, t.collection, t.doc + "/" + its);
    PrefixBySlash(d, mine, t.doc, its);
    NameUnder(r, t.relation, t.subject);
  }

  lemma NameUnder(r: Bytes, name: Bytes, subject: Bytes)
    requires '/' !in r
    ensures r + "/" + [] <= name + "/" + subject <==> name == r || Below(r, name)
  {
    assert r + "/" + [] == r + "/";
    if '/' in name {
      var a, b := FirstSlash(name);
      assert name + "/" + subject == a + "/" + (b + "/" + subject);
      PrefixBySlash(r, [], a, b + "/" + subject);
      PrefixBySlash(r, [], a, b);
    } else {
      PrefixBySlash(r, [], name, subject);
      assert Below(r, name) ==> '/' in name by { BelowHasSlash(r, name); }
    }
  }

  lemma BelowHasSlash(r: Bytes, name: Bytes)
    ensures Below(r, name) ==> '/' in name
  {
    if Below(r, name) { assert name[|r|] == (r + "/")[|r|] == '/'; }
  }

  lemma {:induction false} FirstSlash(name: Bytes) returns (a: Bytes, b: Bytes)
    requires '/' in name
    ensures '/' !in a && name == a + "/" + b
  {
    if name[0] == '/' {
      a, b := [], name[1..];
    } else {
      a, b := FirstSlash(name[1..]);
      a := [name[0]] + a;
    }
  }

  // With subjects free of separators a key still names one tuple, so putting,
  // deleting and looking up are exact for every relation name.
  lemma LooseKeyIsInjective(t: RelationTuple, u: RelationTuple)
    requires ValidDocument(t.collection, t.doc) && ValidDocument(u.collection, u.doc)
    requires '/' !in t.subject && '/' !in u.subject
    ensures StorageKey(t) == StorageKey(u) <==> t == u
  {
    if StorageKey(t) == StorageKey(u) {
      var rel, rel' := t.relation + "/" + t.subject, u.relation + "/" + u.subject;
      PrefixCancel(TUPLE_PREFIX, t.collection + "/" + (t.doc + "/" + rel), u.collection + "/" + (u.doc + "/" + rel'));
      PrefixBySlash(t.collection, t.doc + "/" + rel, u.collection, u.doc + "/" + rel');
      PrefixBySlash(t.doc, rel, u.doc, rel');
      assert |rel| == |rel'|;
      LastSlash(t.relation, t.subject, u.relation, u.subject);
    }
  }

  lemma LastSlash(a: Bytes, s: Bytes, b: Bytes, t: Bytes)
    requires '/' !in s && '/' !in t && a + "/" + s == b + "/" + t
    ensures a == b && s == t
  {
    var x, y := a + "/" + s, b + "/" + t;
    assert x[|a|] == '/' && y[|b|] == '/';
    assert forall i :: |a| < i < |x| ==> x[i] == s[i - |a| - 1];
    assert forall i :: |b| < i < |y| ==> y[i] == t[i - |b| - 1];
    assert |a| == |b|;
    assert a == x[..|a|] && b == y[..|b|] && s == x[|a| + 1..] && t == y[|b| + 1..];
  }

  // ----- Scans -----

  // The in-memory store returns what lies under the prefix.
  function MemoryScan(m: TupleMap, prefix: Bytes): set<RelationTuple>
  {
    set k | k in m && prefix <= k :: m[k]
  }

  // The persistent store decodes it, and decoding validates.
  function PersistentScan(m: TupleMap, prefix: Bytes): Option<set<RelationTuple>>
  {
    if forall k :: k in m && prefix <= k ==> ValidTuple(m[k]) then Some(MemoryScan(m, prefix)) else None
  }

  predicate OfDocument(m: TupleMap, k: Bytes, c: Bytes, d: Bytes)
  {
    k in m && m[k].collection == c && m[k].doc == d
  }

  // The stores agree on a document's tuples if and only if each has a relation
  // name that validation accepts.
  lemma StoresAgreeOnDocumentIff(m: TupleMap, c: Bytes, d: Bytes)
    requires Loose(m) && ValidDocument(c, d)
    ensures PersistentScan(m, DocPrefix(c, d)) == Some(MemoryScan(m, DocPrefix(c, d))) <==>
            forall k :: OfDocument(m, k, c, d) ==> ValidComponent(m[k].relation)
    ensures MemoryScan(m, DocPrefix(c, d)) == Of(c, d, Contents(m))
  {
    forall k | k in m ensures DocPrefix(c, d) <= k <==> OfDocument(m, k, c, d) {
      LooseDocScan(m[k], c, d);
    }
    forall t | t in Of(c, d, Contents(m)) ensures t in MemoryScan(m, DocPrefix(c, d)) {
      var k :| k in m && m[k] == t;
      assert OfDocument(m, k, c, d);
    }
  }

  // They agree on a relation's subjects if and only if no tuple of the document
  // has a relation name below it.
  lemma StoresAgreeOnRelationIff(m: TupleMap, c: Bytes, d: Bytes, r: Bytes)
    requires Loose(m) && ValidDocument(c, d) && ValidComponent(r)
    ensures PersistentScan(m, RelationPrefix(c, d, r)) == Some(MemoryScan(m, RelationPrefix(c, d, r))) <==>
            forall k :: OfDocument(m, k, c, d) ==> !Below(r, m[k].relation)
  {
    forall k | k in m
      ensures RelationPrefix(c, d, r) <= k && !ValidTuple(m[k]) <==> OfDocument(m, k, c, d) && Below(r, m[k].relation)
    {
      LooseRelationScan(m[k], c, d, r);
      BelowHasSlash(r, m[k].relation);
    }
  }

  // The owner `get_doc_owner` may take from the in-memory scan.
  function OwnersRead(m: TupleMap, c: Bytes, d: Bytes): set<Bytes>
  {
    set t | t in MemoryScan(m, RelationPrefix(c, d, OWNER_RELATION)) :: t.subject
  }

  // It is an owner, in any scan order, if and only if whoever holds a relation
  // named below "owner" is one.
  lemma OwnerReadIsOwnerIff(m: TupleMap, c: Bytes, d: Bytes)
    requires Loose(m) && ValidDocument(c, d)
    ensures OwnersRead(m, c, d) == OwnersOf(Contents(m), c, d) <==>
            forall k :: OfDocument(m, k, c, d) && Below(OWNER_RELATION, m[k].relation) ==>
              m[k].subject in OwnersOf(Contents(m), c, d)
  {
    var ts := MemoryScan(m, RelationPrefix(c, d, OWNER_RELATION));
    forall k | k in m
      ensures RelationPrefix(c, d, OWNER_RELATION) <= k <==>
              OfDocument(m, k, c, d) && (m[k].relation == OWNER_RELATION || Below(OWNER_RELATION, m[k].relation))
    {
      LooseRelationScan(m[k], c, d, OWNER_RELATION);
    }
    forall o | o in OwnersOf(Contents(m), c, d) ensures o in OwnersRead(m, c, d) {
      OwnerMeansTuple(Contents(m), c, d, o);
      var k :| k in m && m[k] == OwnerTuple(o, c, d);
      assert m[k] in ts;
    }
    forall k | OfDocument(m, k, c, d) && Below(OWNER_RELATION, m[k].relation)
      ensures m[k].subject in OwnersRead(m, c, d)
    {
      assert m[k] in ts;
    }
    forall o | o in OwnersRead(m, c, d)
      ensures o in OwnersOf(Contents(m), c, d) || exists k :: OfDocument(m, k, c, d) && Below(OWNER_RELATION, m[k].relation) && m[k].subject == o
    {
      var t :| t in ts && t.subject == o;
      var k :| k in m && RelationPrefix(c, d, OWNER_RELATION) <= k && m[k] == t;
      if t.relation == OWNER_RELATION { assert t in Of(c, d, Contents(m)); }
    }
  }

  // So a relation named "owner/..." can make the read name someone else, where
  // the persistent store fails.
  lemma NameBelowOwnerMisleads(o: Bytes, other: Bytes, x: Bytes, c: Bytes, d: Bytes)
    requires ValidDocument(c, d) && o != other && StorageKey(OwnerTuple(o, c, d)) != StorageKey(RelationTuple(other, "owner/" + x, c, d))
    ensures var t := RelationTuple(other, "owner/" + x, c, d);
            var m := map[StorageKey(OwnerTuple(o, c, d)) := OwnerTuple(o, c, d), StorageKey(t) := t];
            && Loose(m) && OwnersOf(Contents(m), c, d) == {o} && other in OwnersRead(m, c, d)
            && PersistentScan(m, RelationPrefix(c, d, OWNER_RELATION)) == None
  {
    var own, t := OwnerTuple(o, c, d), RelationTuple(other, "owner/" + x, c, d);
    var m := map[StorageKey(own) := own, StorageKey(t) := t];
    assert m[StorageKey(own)] == own && m[StorageKey(t)] == t;
    assert Below(OWNER_RELATION, t.relation);
    assert |t.relation| > |OWNER_RELATION|;
    assert Contents(m) == {own, t};
    assert Of(c, d, Contents(m)) == {own, t};
    assert OwnersOf(Contents(m), c, d) == {o};
    LooseRelationScan(t, c, d, OWNER_RELATION);
    assert t in MemoryScan(m, RelationPrefix(c, d, OWNER_RELATION));
    assert OfDocument(m, StorageKey(t), c, d);
    StoresAgreeOnRelationIff(m, c, d, OWNER_RELATION);
  }
}
