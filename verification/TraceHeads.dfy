// The heads of one document in a trace: naming them in commit order, their
// priorities and their CID order (proofs/src/model_trace.rs).

module TraceHeads {
  import opened Options
  import opened Text
  import opened CidBase32

  // A logged `Commit` event: the node that logged it, the head's CID and the CIDs
  // it was written on.
  datatype Commit = Commit(node: Bytes, doc: Bytes, head: Bytes, parents: seq<Bytes>)

  datatype Head = Head(name: Bytes, cid: Bytes)

  datatype Trace = Trace(heads: seq<Head>, author: map<Bytes, Bytes>, parents: map<Bytes, set<Bytes>>)

  datatype Outcome = Traced(trace: Trace) | NoCommit | UnknownParent(head: Bytes, parent: Bytes)

  // ----- Names -----

  function Decimal(n: nat): (s: Bytes)
    ensures s != []
  {
    var digit := (n % 10 + '0' as int) as char;
    if n < 10 then [digit] else Decimal(n / 10) + [digit]
  }

  lemma {:induction false} DecimalIsInjective(n: nat, m: nat)
    requires Decimal(n) == Decimal(m)
    ensures n == m
  {
    var a, b := Decimal(n), Decimal(m);
    assert a[|a| - 1] == (n % 10 + '0' as int) as char && b[|b| - 1] == (m % 10 + '0' as int) as char;
    assert n % 10 == m % 10;
    if n >= 10 && m >= 10 {
      assert a[..|a| - 1] == Decimal(n / 10) && b[..|b| - 1] == Decimal(m / 10);
      DecimalIsInjective(n / 10, m / 10);
    }
  }

  // A decimal number, read back.
  function ReadDecimal(s: Bytes): int
  {
    if s == [] then 0 else 10 * ReadDecimal(s[..|s| - 1]) + (s[|s| - 1] as int - '0' as int)
  }

  // Digits, most significant first, without leading zeros.
  lemma {:induction false} DecimalReads(n: nat)
    ensures var s := Decimal(n);
            && (forall i :: 0 <= i < |s| ==> '0' <= s[i] <= '9')
            && ReadDecimal(s) == n && (n > 0 ==> s[0] != '0') && (n == 0 ==> s == "0")
  {
    if n >= 10 {
      DecimalReads(n / 10);
      assert Decimal(n)[..|Decimal(n)| - 1] == Decimal(n / 10);
    }
  }

  // The `i`-th head, counting from zero, is called `h{i + 1}`.
  function Name(i: nat): Bytes
  {
    "h" + Decimal(i + 1)
  }

  lemma NamesCountFromOne(i: nat)
    ensures Name(i)[0] == 'h' && ReadDecimal(Name(i)[1..]) == i + 1
    ensures Name(0) == "h1" && Name(9) == "h10"
  {
    DecimalReads(i + 1);
    assert Name(i)[1..] == Decimal(i + 1);
    assert Decimal(10) == Decimal(1) + "0";
  }

  lemma NamesDiffer(i: nat, j: nat)
    ensures Name(i) == Name(j) <==> i == j
  {
    if Name(i) == Name(j) {
      assert Name(i)[1..] == Decimal(i + 1) && Name(j)[1..] == Decimal(j + 1);
      DecimalIsInjective(i + 1, j + 1);
    }
  }

  // ----- Which commits are heads -----

  // The first commit of each CID of `doc`, in log order.
  function Firsts(events: seq<Commit>, doc: Bytes): seq<Commit>
  {
    if events == [] then []
    else
      var before, e := Firsts(events[..|events| - 1], doc), events[|events| - 1];
      if e.doc == doc && e.head !in Cids(before) then before + [e] else before
  }

  function Cids(firsts: seq<Commit>): (cids: set<Bytes>)
    ensures forall i :: 0 <= i < |firsts| ==> firsts[i].head in cids
  {
    set i | 0 <= i < |firsts| :: firsts[i].head
  }

  predicate Distinct(firsts: seq<Commit>)
  {
    forall i, j :: 0 <= i < j < |firsts| ==> firsts[i].head != firsts[j].head
  }

  lemma {:induction false} FirstsAreTheHeads(events: seq<Commit>, doc: Bytes)
    ensures Distinct(Firsts(events, doc))
    ensures Cids(Firsts(events, doc)) == set e | e in events && e.doc == doc :: e.head
  {
    if events != [] {
      var n := |events| - 1;
      var rest, e := events[..n], events[n];
      FirstsAreTheHeads(rest, doc);
      assert events == rest + [e];
      var before := Firsts(rest, doc);
      if e.doc == doc && e.head !in Cids(before) {
        CidsAppend(before, e);
      }
    }
  }

  // `at` lists, in order, the positions of the first commit of each CID of `doc`.
  ghost predicate FirstPlaces(events: seq<Commit>, doc: Bytes, at: seq<nat>)
  {
    && (forall i :: 0 <= i < |at| ==> FirstPlace(events, doc, at[i]))
    && (forall i, j :: 0 <= i < j < |at| ==> at[i] < at[j])
    && (forall n: nat :: FirstPlace(events, doc, n) ==> n in at)
  }

  ghost predicate FirstPlace(events: seq<Commit>, doc: Bytes, n: nat)
  {
    && n < |events| && events[n].doc == doc
    && forall m :: 0 <= m < n && events[m].doc == doc ==> events[m].head != events[n].head
  }

  // They are the document's commits that first name their CID, in log order.
  lemma {:induction false} FirstsInLogOrder(events: seq<Commit>, doc: Bytes) returns (at: seq<nat>)
    ensures FirstPlaces(events, doc, at) && |Firsts(events, doc)| == |at|
    ensures forall i :: 0 <= i < |at| ==> Firsts(events, doc)[i] == events[at[i]]
  {
    if events == [] {
      at := [];
    } else {
      var n := |events| - 1;
      at := FirstsInLogOrder(events[..n], doc);
      assert forall i :: 0 <= i < |at| ==> FirstPlace(events[..n], doc, at[i]);
      EarlierPlaces(events, doc);
      LastPlace(events, doc);
      if FirstPlace(events, doc, n) {
        PlacesMore(events, doc, at);
        at := at + [n];
      } else {
        PlacesStay(events, doc, at);
      }
    }
  }

  lemma EarlierPlaces(events: seq<Commit>, doc: Bytes)
    requires events != []
    ensures forall m: nat :: m < |events| - 1 ==>
              (FirstPlace(events[..|events| - 1], doc, m) <==> FirstPlace(events, doc, m))
  {
  }

  lemma LastPlace(events: seq<Commit>, doc: Bytes)
    requires events != []
    ensures var n := |events| - 1;
            FirstPlace(events, doc, n) <==> events[n].doc == doc && events[n].head !in Cids(Firsts(events[..n], doc))
  {
    var n := |events| - 1;
    var rest, head := events[..n], events[n].head;
    FirstsAreTheHeads(rest, doc);
    if m :| 0 <= m < n && events[m].doc == doc && events[m].head == head {
      assert rest[m] in rest && rest[m].doc == doc && rest[m].head == head;
    }
    if e :| e in rest && e.doc == doc && e.head == head {
      var m :| 0 <= m < n && rest[m] == e;
      assert events[m] == e;
    }
  }

  lemma PlacesStay(events: seq<Commit>, doc: Bytes, at: seq<nat>)
    requires events != [] && !FirstPlace(events, doc, |events| - 1)
    requires FirstPlaces(events[..|events| - 1], doc, at)
    requires forall m: nat :: m < |events| - 1 ==> (FirstPlace(events[..|events| - 1], doc, m) <==> FirstPlace(events, doc, m))
    ensures FirstPlaces(events, doc, at)
  {
  }

  lemma PlacesMore(events: seq<Commit>, doc: Bytes, at: seq<nat>)
    requires events != [] && FirstPlace(events, doc, |events| - 1)
    requires FirstPlaces(events[..|events| - 1], doc, at)
    requires forall m: nat :: m < |events| - 1 ==> (FirstPlace(events[..|events| - 1], doc, m) <==> FirstPlace(events, doc, m))
    ensures FirstPlaces(events, doc, at + [|events| - 1])
  {
    var n := |events| - 1;
    var more := at + [n];
    assert more[|at|] == n;
    forall m: nat | FirstPlace(events, doc, m) ensures m in more {
      if m < n {
        assert m in at;
        var i :| 0 <= i < |at| && at[i] == m;
        assert more[i] == m;
      }
    }
  }

  lemma CidsAppend(before: seq<Commit>, e: Commit)
    ensures Cids(before + [e]) == Cids(before) + {e.head}
  {
    forall c | c in Cids(before) ensures c in Cids(before + [e]) {
      var i :| 0 <= i < |before| && before[i].head == c;
      assert (before + [e])[i].head == c;
    }
    assert (before + [e])[|before|].head == e.head;
  }

  // ----- The trace of a document -----

  ghost predicate NamesHeads(firsts: seq<Commit>, names: map<Bytes, Bytes>)
  {
    && names.Keys == Cids(firsts)
    && forall i :: 0 <= i < |firsts| ==> names[firsts[i].head] == Name(i)
  }

  // Every parent is some head.
  predicate Known(firsts: seq<Commit>)
  {
    forall i :: 0 <= i < |firsts| ==> KnownParents(firsts, i)
  }

  predicate KnownParents(firsts: seq<Commit>, i: nat)
    requires i < |firsts|
  {
    forall c :: c in firsts[i].parents ==> c in Cids(firsts)
  }

  function ParentNames(firsts: seq<Commit>, i: nat): set<Bytes>
    requires i < |firsts|
  {
    set j | 0 <= j < |firsts| && firsts[j].head in firsts[i].parents :: Name(j)
  }

  // The trace names the heads in commit order, with the node that committed each
  // first, and points at the named parents.
  ghost predicate Describes(t: Trace, firsts: seq<Commit>)
  {
    && |t.heads| == |firsts|
    && forall i :: 0 <= i < |firsts| ==>
         && t.heads[i] == Head(Name(i), firsts[i].head)
         && Name(i) in t.author && t.author[Name(i)] == firsts[i].node
         && Name(i) in t.parents && t.parents[Name(i)] == ParentNames(firsts, i)
  }

  // `parent` is the first of head `i`'s parents that is no head.
  ghost predicate FirstUnknown(firsts: seq<Commit>, i: nat, parent: Bytes)
    requires i < |firsts|
  {
    exists k :: 0 <= k < |firsts[i].parents| && firsts[i].parents[k] == parent && parent !in Cids(firsts) &&
                forall n :: 0 <= n < k ==> firsts[i].parents[n] in Cids(firsts)
  }

  // The unknown parent reported: that of the head whose name, as text, comes
  // first among those that have one.
  ghost predicate Reported(firsts: seq<Commit>, head: Bytes, parent: Bytes)
  {
    && (exists i: nat :: i < |firsts| && head == Name(i) && FirstUnknown(firsts, i, parent))
    && forall j: nat :: j < |firsts| && !KnownParents(firsts, j) ==> AtMost(head, Name(j))
  }

  // The part of `abstracted` that follows one document's heads.
  method Abstracted(events: seq<Commit>, doc: Bytes) returns (r: Outcome)
    ensures var firsts := Firsts(events, doc);
            match r
            case NoCommit => firsts == []
            case UnknownParent(head, parent) => firsts != [] && !Known(firsts) && Reported(firsts, head, parent)
            case Traced(t) => firsts != [] && Known(firsts) && Describes(t, firsts)
  {
    var heads, names, author, parentCids := NameHeads(events, doc);
    if heads == [] { return NoCommit; }
    var unknown, parents := NameParents(names, parentCids, Firsts(events, doc));
    match unknown
    case None => return Traced(Trace(heads, author, parents));
    case Some(u) => return UnknownParent(u.0, u.1);
  }

  ghost predicate ListsParents(firsts: seq<Commit>, parentCids: map<Bytes, seq<Bytes>>)
  {
    && (forall i :: 0 <= i < |firsts| ==> Name(i) in parentCids && parentCids[Name(i)] == firsts[i].parents)
    && forall n :: n in parentCids ==> IsName(firsts, n)
  }

  ghost predicate IsName(firsts: seq<Commit>, n: Bytes)
  {
    exists i: nat :: i < |firsts| && n == Name(i)
  }

  // Each head's parents by name, heads taken in the order of their names, unless
  // one is not a head.
  method NameParents(names: map<Bytes, Bytes>, parentCids: map<Bytes, seq<Bytes>>, ghost firsts: seq<Commit>)
    returns (unknown: Option<(Bytes, Bytes)>, parents: map<Bytes, set<Bytes>>)
    requires NamesHeads(firsts, names) && ListsParents(firsts, parentCids)
    ensures unknown.None? ==> Known(firsts) && ParentsNamed(firsts, parents, {})
    ensures unknown.Some? ==> !Known(firsts) && Reported(firsts, unknown.value.0, unknown.value.1)
  {
    parents := map[];
    var left := parentCids.Keys;
    while left != {}
      invariant left <= parentCids.Keys && ParentsNamed(firsts, parents, left)
      decreases left
    {
      var name := Least(left);
      ghost var i := IndexOfName(firsts, name);
      var missing, named := NameCids(names, parentCids[name]);
      if missing.Some? {
        ReportedNow(firsts, parents, left, i, missing.value);
        return Some((name, missing.value)), parents;
      }
      NamedParents(firsts, names, i);
      NameOneMoreParent(firsts, parents, left, i);
      parents := parents[name := named];
      left := left - {name};
    }
    return None, parents;
  }

  // The names of some CIDs, or the first that has none.
  method NameCids(names: map<Bytes, Bytes>, cids: seq<Bytes>) returns (missing: Option<Bytes>, named: set<Bytes>)
    ensures missing.None? <==> forall c :: c in cids ==> c in names
    ensures missing.None? ==> named == set c | c in cids :: names[c]
    ensures missing.Some? ==> missing.value !in names
    ensures missing.Some? ==>
              exists k :: 0 <= k < |cids| && cids[k] == missing.value && forall n :: 0 <= n < k ==> cids[n] in names
  {
    named := {};
    for k := 0 to |cids|
      invariant forall n :: 0 <= n < k ==> cids[n] in names
      invariant named == set n | 0 <= n < k :: names[cids[n]]
    {
      if cids[k] !in names { return Some(cids[k]), named; }
      named := named + {names[cids[k]]};
    }
    missing := None;
    forall x ensures x in named <==> x in (set c | c in cids :: names[c]) {
      if x in named {
        var n :| 0 <= n < |cids| && x == names[cids[n]];
        assert cids[n] in cids;
      }
    }
  }

  lemma IndexOfName(firsts: seq<Commit>, n: Bytes) returns (i: nat)
    requires IsName(firsts, n)
    ensures i < |firsts| && n == Name(i)
  {
    i :| i < |firsts| && n == Name(i);
  }

  // Every head whose name is not in `left` has its parents, all known, named.
  ghost predicate ParentsNamed(firsts: seq<Commit>, parents: map<Bytes, set<Bytes>>, left: set<Bytes>)
  {
    forall i :: 0 <= i < |firsts| && Name(i) !in left ==>
      Name(i) in parents && parents[Name(i)] == ParentNames(firsts, i) && KnownParents(firsts, i)
  }

  lemma ReportedNow(firsts: seq<Commit>, parents: map<Bytes, set<Bytes>>, left: set<Bytes>, i: nat, parent: Bytes)
    requires ParentsNamed(firsts, parents, left) && i < |firsts| && IsLeast(Name(i), left) && FirstUnknown(firsts, i, parent)
    ensures !Known(firsts) && Reported(firsts, Name(i), parent)
  {
    assert !KnownParents(firsts, i);
  }

  lemma NameOneMoreParent(firsts: seq<Commit>, parents: map<Bytes, set<Bytes>>, left: set<Bytes>, n: nat)
    requires n < |firsts| && ParentsNamed(firsts, parents, left) && KnownParents(firsts, n)
    ensures ParentsNamed(firsts, parents[Name(n) := ParentNames(firsts, n)], left - {Name(n)})
  {
    forall k | 0 <= k < |firsts| ensures Name(k) == Name(n) <==> k == n { NamesDiffer(k, n); }
  }

  // Commits of `doc`, each new CID named in turn.
  method NameHeads(events: seq<Commit>, doc: Bytes)
    returns (heads: seq<Head>, names: map<Bytes, Bytes>, author: map<Bytes, Bytes>, parentCids: map<Bytes, seq<Bytes>>)
    ensures NamesHeads(Firsts(events, doc), names) && Lists(Firsts(events, doc), heads, author)
    ensures ListsParents(Firsts(events, doc), parentCids)
  {
    heads, names, author, parentCids := [], map[], map[], map[];
    for n := 0 to |events|
      invariant NamesHeads(Firsts(events[..n], doc), names) && Lists(Firsts(events[..n], doc), heads, author)
      invariant ListsParents(Firsts(events[..n], doc), parentCids)
    {
      var e := events[n];
      assert events[..n + 1][..n] == events[..n];
      if e.doc == doc && e.head !in names {
        ghost var before := Firsts(events[..n], doc);
        NameOneMore(before, names, e);
        ListOneMore(before, heads, author, e);
        ListMoreParents(before, parentCids, e);
        var name := Name(|heads|);
        names := names[e.head := name];
        heads := heads + [Head(name, e.head)];
        author := author[name := e.node];
        parentCids := parentCids[name := e.parents];
      }
    }
    assert events[..|events|] == events;
  }

  ghost predicate Lists(firsts: seq<Commit>, heads: seq<Head>, author: map<Bytes, Bytes>)
  {
    && |heads| == |firsts|
    && forall i :: 0 <= i < |firsts| ==>
         heads[i] == Head(Name(i), firsts[i].head) && Name(i) in author && author[Name(i)] == firsts[i].node
  }

  lemma ListOneMore(before: seq<Commit>, heads: seq<Head>, author: map<Bytes, Bytes>, e: Commit)
    requires Lists(before, heads, author)
    ensures Lists(before + [e], heads + [Head(Name(|heads|), e.head)], author[Name(|heads|) := e.node])
  {
    forall i | 0 <= i < |before| ensures Name(i) != Name(|heads|) { NamesDiffer(i, |heads|); }
  }

  lemma ListMoreParents(before: seq<Commit>, parentCids: map<Bytes, seq<Bytes>>, e: Commit)
    requires ListsParents(before, parentCids)
    ensures ListsParents(before + [e], parentCids[Name(|before|) := e.parents])
  {
    var after := before + [e];
    forall i | 0 <= i < |before| ensures Name(i) != Name(|before|) { NamesDiffer(i, |before|); }
    forall n | n in parentCids ensures IsName(after, n) {
      var i := IndexOfName(before, n);
      assert i < |after| && n == Name(i);
    }
    assert IsName(after, Name(|before|));
  }

  lemma NameOneMore(before: seq<Commit>, names: map<Bytes, Bytes>, e: Commit)
    requires NamesHeads(before, names) && e.head !in names
    ensures NamesHeads(before + [e], names[e.head := Name(|before|)])
  {
    CidsAppend(before, e);
    assert forall i :: 0 <= i < |before| ==> before[i].head in Cids(before);
  }

  lemma NamedParents(firsts: seq<Commit>, names: map<Bytes, Bytes>, i: nat)
    requires NamesHeads(firsts, names) && i < |firsts| && forall c :: c in firsts[i].parents ==> c in names
    ensures (set c | c in firsts[i].parents :: names[c]) == ParentNames(firsts, i)
  {
    forall c | c in firsts[i].parents ensures names[c] in ParentNames(firsts, i) {
      assert c in Cids(firsts);
      var j :| 0 <= j < |firsts| && firsts[j].head == c;
      assert names[c] == Name(j);
    }
    forall p | p in ParentNames(firsts, i) ensures p in (set c | c in firsts[i].parents :: names[c]) {
      var j :| 0 <= j < |firsts| && firsts[j].head in firsts[i].parents && p == Name(j);
      assert names[firsts[j].head] == p;
    }
  }

  // ----- Priorities -----

  // What `abstracted` makes: distinct names, each with its parents.
  ghost predicate WellFormed(t: Trace)
  {
    && (forall i :: 0 <= i < |t.heads| ==> t.heads[i].name in t.parents)
    && (forall i, j :: 0 <= i < j < |t.heads| ==> t.heads[i].name != t.heads[j].name)
  }

  lemma DescribedIsWellFormed(t: Trace, firsts: seq<Commit>)
    requires Describes(t, firsts)
    ensures WellFormed(t)
  {
    forall i, j | 0 <= i < j < |t.heads| ensures t.heads[i].name != t.heads[j].name { NamesDiffer(i, j); }
  }

  // Head `i` is a parent of head `j` and was committed before it.
  predicate Edge(t: Trace, i: nat, j: nat)
  {
    i < j < |t.heads| && t.heads[j].name in t.parents && t.heads[i].name in t.parents[t.heads[j].name]
  }

  // A chain of heads, each a parent of the next, ending at head `last`.
  predicate ChainTo(t: Trace, c: seq<nat>, last: nat)
  {
    && c != [] && c[|c| - 1] == last < |t.heads|
    && forall k :: 0 <= k < |c| - 1 ==> Edge(t, c[k], c[k + 1])
  }

  ghost predicate LongestTo(t: Trace, i: nat, n: nat)
  {
    && (exists c :: ChainTo(t, c, i) && |c| == n)
    && (forall c :: ChainTo(t, c, i) ==> |c| <= n)
  }

  // Each head's priority is the length of the longest chain of parents,
  // committed in order, that ends at it.
  method Priorities(t: Trace) returns (prio: map<Bytes, nat>)
    requires WellFormed(t)
    ensures forall i :: 0 <= i < |t.heads| ==> t.heads[i].name in prio && LongestTo(t, i, prio[t.heads[i].name])
  {
    prio := map[];
    for n := 0 to |t.heads|
      invariant forall i :: 0 <= i < n ==> t.heads[i].name in prio && LongestTo(t, i, prio[t.heads[i].name])
      invariant forall p :: p in prio ==> exists i :: 0 <= i < n && t.heads[i].name == p
    {
      var name := t.heads[n].name;
      var highest := Highest(t.parents[name], prio);
      OneMoreThanHighest(t, n, prio, highest);
      prio := prio[name := highest + 1];
    }
  }

  method Highest(parents: set<Bytes>, prio: map<Bytes, nat>) returns (highest: nat)
    ensures forall p :: p in parents && p in prio ==> prio[p] <= highest
    ensures highest == 0 || exists p :: p in parents && p in prio && prio[p] == highest
  {
    highest := 0;
    var left := parents;
    while left != {}
      invariant left <= parents
      invariant forall p :: p in parents - left && p in prio ==> prio[p] <= highest
      invariant highest == 0 || exists p :: p in parents && p in prio && prio[p] == highest
      decreases left
    {
      var p :| p in left;
      if p in prio && prio[p] > highest { highest := prio[p]; }
      left := left - {p};
    }
  }

  lemma OneMoreThanHighest(t: Trace, n: nat, prio: map<Bytes, nat>, highest: nat)
    requires WellFormed(t) && n < |t.heads|
    requires forall i :: 0 <= i < n ==> t.heads[i].name in prio && LongestTo(t, i, prio[t.heads[i].name])
    requires forall p :: p in prio ==> exists i :: 0 <= i < n && t.heads[i].name == p
    requires forall p :: p in t.parents[t.heads[n].name] && p in prio ==> prio[p] <= highest
    requires highest == 0 || exists p :: p in t.parents[t.heads[n].name] && p in prio && prio[p] == highest
    ensures LongestTo(t, n, highest + 1)
  {
    if highest == 0 {
      assert ChainTo(t, [n], n);
    } else {
      var p :| p in t.parents[t.heads[n].name] && p in prio && prio[p] == highest;
      var i :| 0 <= i < n && t.heads[i].name == p;
      ChainThrough(t, i, n, highest);
    }
    forall c | ChainTo(t, c, n) ensures |c| <= highest + 1 {
      NoLongerChain(t, n, prio, highest, c);
    }
  }

  lemma ChainThrough(t: Trace, i: nat, n: nat, m: nat)
    requires WellFormed(t) && i < n < |t.heads| && LongestTo(t, i, m) && t.heads[i].name in t.parents[t.heads[n].name]
    ensures exists c :: ChainTo(t, c, n) && |c| == m + 1
  {
    var c :| ChainTo(t, c, i) && |c| == m;
    Extend(t, c, i, n);
  }

  lemma NoLongerChain(t: Trace, n: nat, prio: map<Bytes, nat>, highest: nat, c: seq<nat>)
    requires WellFormed(t) && n < |t.heads| && ChainTo(t, c, n)
    requires forall i :: 0 <= i < n ==> t.heads[i].name in prio && LongestTo(t, i, prio[t.heads[i].name])
    requires forall p :: p in t.parents[t.heads[n].name] && p in prio ==> prio[p] <= highest
    ensures |c| <= highest + 1
  {
    if |c| > 1 {
      var i := Shorten(t, c, n);
      assert LongestTo(t, i, prio[t.heads[i].name]);
    }
  }

  lemma Extend(t: Trace, c: seq<nat>, i: nat, n: nat)
    requires ChainTo(t, c, i) && Edge(t, i, n)
    ensures ChainTo(t, c + [n], n)
  {
    forall k | 0 <= k < |c + [n]| - 1 ensures Edge(t, (c + [n])[k], (c + [n])[k + 1]) {
      if k < |c| - 1 { assert Edge(t, c[k], c[k + 1]); }
    }
  }

  lemma Shorten(t: Trace, c: seq<nat>, n: nat) returns (i: nat)
    requires ChainTo(t, c, n) && |c| > 1
    ensures Edge(t, i, n) && ChainTo(t, c[..|c| - 1], i)
  {
    i := c[|c| - 2];
    assert Edge(t, c[|c| - 2], c[|c| - 2 + 1]);
    var d := c[..|c| - 1];
    forall k | 0 <= k < |d| - 1 ensures Edge(t, d[k], d[k + 1]) { assert Edge(t, c[k], c[k + 1]); }
  }

  // ----- Traces whose parents are committed first -----

  // A parent's head appears before its child's.
  ghost predicate ParentsFirst(t: Trace)
  {
    forall j, p :: 0 <= j < |t.heads| && t.heads[j].name in t.parents && p in t.parents[t.heads[j].name] ==>
      exists i :: 0 <= i < j && t.heads[i].name == p
  }

  // A chain of parents, by name alone.
  predicate ParentChain(t: Trace, c: seq<Bytes>)
  {
    && c != []
    && forall k :: 0 <= k < |c| - 1 ==> IsParent(t, c[k], c[k + 1])
  }

  predicate IsParent(t: Trace, p: Bytes, h: Bytes)
  {
    h in t.parents && p in t.parents[h]
  }

  lemma {:induction false} IndexedChain(t: Trace, c: seq<Bytes>, i: nat) returns (d: seq<nat>)
    requires ParentsFirst(t) && ParentChain(t, c) && i < |t.heads| && t.heads[i].name == c[|c| - 1]
    ensures ChainTo(t, d, i) && |d| == |c|
    ensures forall k :: 0 <= k < |c| ==> d[k] < |t.heads| && t.heads[d[k]].name == c[k]
  {
    if |c| == 1 {
      d := [i];
    } else {
      var n := |c| - 1;
      assert IsParent(t, c[n - 1], c[n - 1 + 1]);
      var j :| 0 <= j < i && t.heads[j].name == c[n - 1];
      var e := IndexedChain(t, c[..n], j);
      d := e + [i];
      Extend(t, e, j, i);
    }
  }

  // For a trace whose parents are committed before their children, a head's
  // priority is the length of the longest parent chain ending at it, with no
  // regard to order.
  lemma PriorityIsLongestParentChain(t: Trace, i: nat, n: nat, c: seq<Bytes>)
    requires ParentsFirst(t) && LongestTo(t, i, n)
    requires ParentChain(t, c) && i < |t.heads| && c[|c| - 1] == t.heads[i].name
    ensures |c| <= n
  {
    var d := IndexedChain(t, c, i);
  }

  // Hence strictly more than every ancestor's.
  lemma AncestorsHaveLess(t: Trace, i: nat, n: nat, a: nat, m: nat, c: seq<Bytes>)
    requires ParentsFirst(t) && LongestTo(t, i, n) && LongestTo(t, a, m) && i < |t.heads| && a < |t.heads|
    requires ParentChain(t, c) && |c| > 1 && c[0] == t.heads[a].name && c[|c| - 1] == t.heads[i].name
    requires WellFormed(t)
    ensures m < n
  {
    var d := IndexedChain(t, c, i);
    assert t.heads[d[0]].name == t.heads[a].name;
    assert d[0] == a;
    var e :| ChainTo(t, e, a) && |e| == m;
    var f := e + d[1..];
    forall k | 0 <= k < |f| - 1 ensures Edge(t, f[k], f[k + 1]) {
      if k < |e| - 1 { assert Edge(t, e[k], e[k + 1]); }
      else { assert Edge(t, d[k - |e| + 1], d[k - |e| + 2]); }
    }
    assert ChainTo(t, f, i);
  }

  // The log's own order decides that: the trace has its parents first exactly
  // when every head's parents were first committed before it.
  lemma ParentsFirstInTheLog(t: Trace, firsts: seq<Commit>)
    requires Describes(t, firsts) && Known(firsts)
    ensures ParentsFirst(t) <==>
            forall j, i :: 0 <= j < |firsts| && 0 <= i < |firsts| && firsts[i].head in firsts[j].parents ==> i < j
  {
    if ParentsFirst(t) {
      forall j, i | 0 <= j < |firsts| && 0 <= i < |firsts| && firsts[i].head in firsts[j].parents ensures i < j {
        assert t.heads[j].name == Name(j) && Name(i) in t.parents[t.heads[j].name];
        var k :| 0 <= k < j && t.heads[k].name == Name(i);
        NamesDiffer(k, i);
      }
    }
    if forall j, i :: 0 <= j < |firsts| && 0 <= i < |firsts| && firsts[i].head in firsts[j].parents ==> i < j {
      forall j, p | 0 <= j < |t.heads| && t.heads[j].name in t.parents && p in t.parents[t.heads[j].name]
        ensures exists i :: 0 <= i < j && t.heads[i].name == p
      {
        var i :| 0 <= i < |firsts| && firsts[i].head in firsts[j].parents && p == Name(i);
        assert t.heads[i].name == p;
      }
    }
  }

  // ----- CID order -----

  datatype Keyed = Keyed(bytes: Bytes, name: Bytes)

  predicate KeyedAtMost(a: Keyed, b: Keyed)
  {
    Less(a.bytes, b.bytes) || (a.bytes == b.bytes && AtMost(a.name, b.name))
  }

  predicate Sorted(s: seq<Keyed>)
  {
    forall i, j :: 0 <= i < j < |s| ==> KeyedAtMost(s[i], s[j])
  }

  lemma KeyedTotal(a: Keyed, b: Keyed)
    ensures KeyedAtMost(a, b) || KeyedAtMost(b, a)
  {
    LessTotal(a.bytes, b.bytes);
    LessTotal(a.name, b.name);
    if a.name == b.name { LessIrreflexive(a.name); }
    if Less(a.name, b.name) && Less(b.name, a.name) { LessTransitive(a.name, b.name, a.name); LessIrreflexive(a.name); }
  }

  lemma KeyedTransitive(a: Keyed, b: Keyed, c: Keyed)
    requires KeyedAtMost(a, b) && KeyedAtMost(b, c)
    ensures KeyedAtMost(a, c)
  {
    if Less(a.bytes, b.bytes) && Less(b.bytes, c.bytes) {
      LessTransitive(a.bytes, b.bytes, c.bytes);
    } else if a.bytes == b.bytes == c.bytes && Less(c.name, a.name) {
      LessThenAtMost(c.name, a.name, b.name);
    }
  }

  // `sort` on pairs: insert each in its place.
  method InsertKeyed(s: seq<Keyed>, x: Keyed) returns (r: seq<Keyed>)
    requires Sorted(s)
    ensures Sorted(r) && multiset(r) == multiset(s) + multiset{x}
  {
    var n := 0;
    while n < |s| && KeyedAtMost(s[n], x)
      invariant 0 <= n <= |s| && forall i :: 0 <= i < n ==> KeyedAtMost(s[i], x)
    {
      n := n + 1;
    }
    r := s[..n] + [x] + s[n..];
    assert s == s[..n] + s[n..];
    if n < |s| {
      KeyedTotal(s[n], x);
      forall j | n <= j < |s| ensures KeyedAtMost(x, s[j]) {
        if j > n { KeyedTransitive(x, s[n], s[j]); }
      }
    }
  }

  // `key_order`: the heads in CID byte order. `keyed` lists each head once with
  // its decoded bytes, sorted by them, names breaking ties.
  method KeyOrder(heads: seq<Head>) returns (order: seq<Bytes>, ghost keyed: seq<Keyed>)
    ensures multiset(keyed) == multiset(seq(|heads|, i requires 0 <= i < |heads| => Keyed(CidBytes(heads[i].cid), heads[i].name)))
    ensures |order| == |heads| == |keyed| && forall i :: 0 <= i < |order| ==> order[i] == keyed[i].name
    ensures forall i, j :: 0 <= i < j < |keyed| ==>
              AtMost(keyed[i].bytes, keyed[j].bytes) && (keyed[i].bytes == keyed[j].bytes ==> AtMost(keyed[i].name, keyed[j].name))
  {
    var all := KeyedHeads(heads);
    var sorted: seq<Keyed> := [];
    for n := 0 to |all|
      invariant Sorted(sorted) && multiset(sorted) == multiset(all[..n])
    {
      assert all[..n + 1] == all[..n] + [all[n]];
      sorted := InsertKeyed(sorted, all[n]);
    }
    assert all[..|all|] == all;
    assert |multiset(sorted)| == |multiset(all)|;
    keyed := sorted;
    order := seq(|sorted|, i requires 0 <= i < |sorted| => sorted[i].name);
    forall i, j | 0 <= i < j < |keyed|
      ensures AtMost(keyed[i].bytes, keyed[j].bytes) && (keyed[i].bytes == keyed[j].bytes ==> AtMost(keyed[i].name, keyed[j].name))
    {
      assert KeyedAtMost(keyed[i], keyed[j]);
      LessIrreflexive(keyed[i].bytes);
      if Less(keyed[j].bytes, keyed[i].bytes) && Less(keyed[i].bytes, keyed[j].bytes) {
        LessTransitive(keyed[i].bytes, keyed[j].bytes, keyed[i].bytes);
      }
    }
  }

  method KeyedHeads(heads: seq<Head>) returns (all: seq<Keyed>)
    ensures all == seq(|heads|, i requires 0 <= i < |heads| => Keyed(CidBytes(heads[i].cid), heads[i].name))
  {
    all := [];
    for n := 0 to |heads|
      invariant |all| == n && forall i :: 0 <= i < n ==> all[i] == Keyed(CidBytes(heads[i].cid), heads[i].name)
    {
      var bytes := DecodeCid(heads[n].cid);
      all := all + [Keyed(bytes, heads[n].name)];
    }
  }
}
