// Owed registrations and the keys they are recorded under
// (crates/acp/src/pending.rs).

module PendingKeys {
  import opened Text
  import opened RelationKeys

  const PENDING_PREFIX: Bytes := "/acp-pending/"
  const U64_SIZE := 0x1_0000_0000_0000_0000

  datatype PendingRegistration =
    PendingRegistration(creator: Bytes, policy: Bytes, resource: Bytes, doc: Bytes)

  // A Rust string is never 2^64 bytes long, so `len() as u64` loses nothing.
  predicate Fits(part: Bytes)
  {
    |part| < U64_SIZE
  }

  predicate Recordable(r: PendingRegistration)
  {
    Fits(r.policy) && Fits(r.resource) && Fits(r.doc)
  }

  function Pow256(k: nat): nat
  {
    if k == 0 then 1 else 256 * Pow256(k - 1)
  }

  // `n` as `k` big-endian bytes.
  function BigEndian(n: nat, k: nat): (bytes: Bytes)
    ensures |bytes| == k
  {
    if k == 0 then [] else BigEndian(n / 256, k - 1) + [(n % 256) as char]
  }

  // One length-prefixed part: `(len as u64).to_be_bytes()`, then the bytes.
  function Part(part: Bytes): Bytes
  {
    BigEndian(|part|, 8) + part
  }

  function PendingKey(policy: Bytes, resource: Bytes, doc: Bytes): Bytes
  {
    PENDING_PREFIX + (Part(policy) + (Part(resource) + (Part(doc) + [])))
  }

  function KeyOf(r: PendingRegistration): Bytes
  {
    PendingKey(r.policy, r.resource, r.doc)
  }

  // `pending_key` as the source builds it, one buffer extended part by part.
  method BuildPendingKey(policy: Bytes, resource: Bytes, doc: Bytes) returns (key: Bytes)
    ensures key == PendingKey(policy, resource, doc)
  {
    key := PENDING_PREFIX;
    var parts := [policy, resource, doc];
    ghost var rest := [Part(policy) + (Part(resource) + (Part(doc) + [])),
                       Part(resource) + (Part(doc) + []), Part(doc) + [], []];
    for i := 0 to 3
      invariant key + rest[i] == PendingKey(policy, resource, doc)
    {
      assert rest[i] == Part(parts[i]) + rest[i + 1];
      assert key + rest[i] == (key + Part(parts[i])) + rest[i + 1];
      key := key + BigEndian(|parts[i]|, 8);
      key := key + parts[i];
      assert key + rest[i + 1] == PendingKey(policy, resource, doc);
    }
  }

  lemma {:induction false} BigEndianIsInjective(n: nat, m: nat, k: nat)
    requires n < Pow256(k) && m < Pow256(k) && BigEndian(n, k) == BigEndian(m, k)
    ensures n == m
  {
    if k > 0 {
      var a, b := BigEndian(n / 256, k - 1), BigEndian(m / 256, k - 1);
      var x, y := (n % 256) as char, (m % 256) as char;
      assert (a + [x])[..k - 1] == a && (b + [y])[..k - 1] == b;
      assert (a + [x])[k - 1] == x && (b + [y])[k - 1] == y;
      BigEndianIsInjective(n / 256, m / 256, k - 1);
      assert n % 256 == x as int && m % 256 == y as int;
    }
  }

  // Big-endian: byte order is the order of the numbers.
  lemma {:induction false} BigEndianKeepsOrder(n: nat, m: nat, k: nat)
    requires n < Pow256(k) && m < Pow256(k)
    ensures Less(BigEndian(n, k), BigEndian(m, k)) <==> n < m
  {
    if k > 0 {
      BigEndianKeepsOrder(n / 256, m / 256, k - 1);
      var a, b := BigEndian(n / 256, k - 1), BigEndian(m / 256, k - 1);
      if a == b { BigEndianIsInjective(n / 256, m / 256, k - 1); }
      LastByteDecides(a, (n % 256) as char, b, (m % 256) as char);
    }
  }

  lemma {:induction false} LastByteDecides(a: Bytes, x: char, b: Bytes, y: char)
    requires |a| == |b|
    ensures Less(a + [x], b + [y]) <==> Less(a, b) || (a == b && x < y)
  {
    if a == [] {
      assert (a + [x])[0] == x && (b + [y])[0] == y && (a + [x])[1..] == [] && (b + [y])[1..] == [];
    } else {
      assert (a + [x])[1..] == a[1..] + [x] && (b + [y])[1..] == b[1..] + [y];
      assert (a + [x])[0] == a[0] && (b + [y])[0] == b[0];
      LastByteDecides(a[1..], x, b[1..], y);
      assert a == b <==> a[0] == b[0] && a[1..] == b[1..] by {
        assert a == [a[0]] + a[1..] && b == [b[0]] + b[1..];
      }
    }
  }

  lemma Pow256Of8()
    ensures Pow256(8) == U64_SIZE
  {
    assert Pow256(4) == 256 * (256 * (256 * (256 * Pow256(0))));
    assert Pow256(8) == 256 * (256 * (256 * (256 * Pow256(4))));
  }

  // A length prefix makes a part self-delimiting.
  lemma PartIsSelfDelimiting(a: Bytes, s: Bytes, b: Bytes, t: Bytes)
    requires Fits(a) && Fits(b)
    ensures Part(a) + s <= Part(b) + t <==> a == b && s <= t
  {
    var x, y := Part(a) + s, Part(b) + t;
    if x <= y {
      assert x[..8] == BigEndian(|a|, 8) && y[..8] == BigEndian(|b|, 8);
      assert x[..8] == y[..8];
      Pow256Of8();
      BigEndianIsInjective(|a|, |b|, 8);
      assert a == x[8..8 + |a|] == y[8..8 + |a|] == b;
    }
    if a == b {
      PrefixCancel(Part(a), s, t);
    }
  }

  // Owed-record keys are injective and prefix-free: a document's key starts
  // another's only when the documents are the same.
  lemma PendingKeysArePrefixFree(p: Bytes, r: Bytes, d: Bytes, p': Bytes, r': Bytes, d': Bytes)
    requires Fits(p) && Fits(r) && Fits(d) && Fits(p') && Fits(r') && Fits(d')
    ensures PendingKey(p, r, d) <= PendingKey(p', r', d') <==> p == p' && r == r' && d == d'
  {
    PrefixCancel(PENDING_PREFIX, Part(p) + (Part(r) + (Part(d) + [])), Part(p') + (Part(r') + (Part(d') + [])));
    PartIsSelfDelimiting(p, Part(r) + (Part(d) + []), p', Part(r') + (Part(d') + []));
    PartIsSelfDelimiting(r, Part(d) + [], r', Part(d') + []);
    PartIsSelfDelimiting(d, [], d', []);
  }

  // Policy first, then resource: the keys of one policy, and of one resource of
  // it, are those under one prefix.
  lemma KeysNestByPolicyAndResource(p: Bytes, r: Bytes, p': Bytes, r': Bytes, d': Bytes)
    requires Fits(p) && Fits(r) && Fits(p') && Fits(r') && Fits(d')
    ensures PENDING_PREFIX + (Part(p) + []) <= PendingKey(p', r', d') <==> p == p'
    ensures PENDING_PREFIX + (Part(p) + (Part(r) + [])) <= PendingKey(p', r', d') <==> p == p' && r == r'
  {
    UnderPolicy(p, [], p', r', d');
    UnderPolicy(p, Part(r) + [], p', r', d');
    PartIsSelfDelimiting(r, [], r', Part(d') + []);
  }

  lemma UnderPolicy(p: Bytes, s: Bytes, p': Bytes, r': Bytes, d': Bytes)
    requires Fits(p) && Fits(p')
    ensures PENDING_PREFIX + (Part(p) + s) <= PendingKey(p', r', d') <==> p == p' && s <= Part(r') + (Part(d') + [])
  {
    PrefixCancel(PENDING_PREFIX, Part(p) + s, Part(p') + (Part(r') + (Part(d') + [])));
    PartIsSelfDelimiting(p, s, p', Part(r') + (Part(d') + []));
  }

  lemma SameKeySameDocument(a: PendingRegistration, b: PendingRegistration)
    requires Recordable(a) && Recordable(b)
    ensures KeyOf(a) == KeyOf(b) <==> a.policy == b.policy && a.resource == b.resource && a.doc == b.doc
  {
    PendingKeysArePrefixFree(a.policy, a.resource, a.doc, b.policy, b.resource, b.doc);
  }

  // The two key families of the ACP namespace never meet: no document's scan
  // sees an owed record, and the redrive's scan sees no tuple.
  lemma FamiliesNeverMeet(c: Bytes, d: Bytes, t: RelationTuple, p: Bytes, r: Bytes, o: Bytes)
    ensures !(DocPrefix(c, d) <= PendingKey(p, r, o))
    ensures !(PENDING_PREFIX <= StorageKey(t))
    ensures PENDING_PREFIX <= PendingKey(p, r, o)
    ensures StorageKey(t) != PendingKey(p, r, o)
  {
    assert DocPrefix(c, d)[4] == '/' && StorageKey(t)[4] == '/';
    assert PendingKey(p, r, o)[4] == '-' && PENDING_PREFIX[4] == '-';
  }
}
