// Keys and strings as byte sequences: each `char` stands for one byte of the
// UTF-8 text or of the stored key, so `|s|` is Rust's `len()` and `<=` on
// sequences is `starts_with` read backwards.

module Text {

  type Bytes = string

  // Byte order, the order in which the store's iterators return keys.
  predicate Less(a: Bytes, b: Bytes)
  {
    if b == [] then false
    else if a == [] then true
    else a[0] < b[0] || (a[0] == b[0] && Less(a[1..], b[1..]))
  }

  predicate AtMost(a: Bytes, b: Bytes)
  {
    !Less(b, a)
  }

  lemma {:induction false} LessIrreflexive(a: Bytes)
    ensures !Less(a, a)
  {
    if a != [] {
      LessIrreflexive(a[1..]);
    }
  }

  lemma {:induction false} LessTransitive(a: Bytes, b: Bytes, c: Bytes)
    requires Less(a, b) && Less(b, c)
    ensures Less(a, c)
  {
    if a != [] && a[0] == b[0] == c[0] {
      LessTransitive(a[1..], b[1..], c[1..]);
    }
  }

  lemma {:induction false} LessTotal(a: Bytes, b: Bytes)
    ensures Less(a, b) || a == b || Less(b, a)
  {
    if a != [] && b != [] && a[0] == b[0] {
      LessTotal(a[1..], b[1..]);
      if a[1..] == b[1..] {
        assert a == [a[0]] + a[1..] && b == [b[0]] + b[1..];
      }
    }
  }

  lemma LessThenAtMost(a: Bytes, b: Bytes, c: Bytes)
    requires Less(a, b) && AtMost(b, c)
    ensures Less(a, c)
  {
    LessTotal(b, c);
    if b != c { LessTransitive(a, b, c); }
  }

  // Appending a zero byte gives the least key after `a`: a scan that starts
  // there resumes just past `a` and skips nothing.
  lemma {:induction false} SuccessorIsTight(a: Bytes, k: Bytes)
    ensures AtMost(a + ['\0'], k) <==> Less(a, k)
  {
    if a == [] {
      if k != [] {
        assert (a + ['\0'])[0] == '\0' && (a + ['\0'])[1..] == [];
        assert !Less(k[1..], []);
      }
    } else if k != [] {
      assert (a + ['\0'])[1..] == a[1..] + ['\0'];
      SuccessorIsTight(a[1..], k[1..]);
    }
  }

  // A prefix comes no later than what it starts.
  lemma {:induction false} PrefixAtMost(p: Bytes, k: Bytes)
    requires p <= k
    ensures AtMost(p, k)
  {
    if p != [] {
      assert p[1..] <= k[1..];
      PrefixAtMost(p[1..], k[1..]);
    }
  }

  predicate IsLeast(k: Bytes, keys: set<Bytes>)
  {
    k in keys && forall j :: j in keys ==> AtMost(k, j)
  }

  lemma LeastExists(keys: set<Bytes>)
    requires keys != {}
    ensures exists k :: IsLeast(k, keys)
    decreases |keys|
  {
    var x :| x in keys;
    var rest := keys - {x};
    LessIrreflexive(x);
    if rest == {} {
      assert keys == rest + {x};
      assert IsLeast(x, keys);
    } else {
      LeastExists(rest);
      var m :| IsLeast(m, rest);
      if Less(x, m) {
        forall j | j in keys ensures AtMost(x, j) {
          assert j != x ==> AtMost(m, j);
          if Less(j, x) { LessTransitive(j, x, m); }
        }
        assert IsLeast(x, keys);
      } else {
        assert IsLeast(m, keys);
      }
    }
  }

  // An ordered iterator's next key.
  method Least(keys: set<Bytes>) returns (k: Bytes)
    requires keys != {}
    ensures IsLeast(k, keys)
  {
    LeastExists(keys);
    k :| k in keys && forall j :: j in keys ==> AtMost(k, j);
  }

  predicate Increasing(ks: seq<Bytes>)
  {
    forall i, j :: 0 <= i < j < |ks| ==> Less(ks[i], ks[j])
  }

  // Cancelling a common head keeps the prefix relation, both ways.
  lemma PrefixCancel(a: Bytes, s: Bytes, t: Bytes)
    ensures a + s <= a + t <==> s <= t
  {
    if a + s <= a + t {
      assert s == (a + s)[|a|..] && t == (a + t)[|a|..];
      assert (a + s)[|a|..] == (a + t)[|a|..|a| + |s|];
    }
    if s <= t {
      assert t == s + t[|s|..];
      assert a + t == (a + s) + t[|s|..];
    }
  }

  // Two slash-terminated components match only when they are the same one.
  lemma PrefixBySlash(a: Bytes, s: Bytes, b: Bytes, t: Bytes)
    requires '/' !in a && '/' !in b
    ensures a + "/" + s <= b + "/" + t <==> a == b && s <= t
  {
    var x, y := a + "/" + s, b + "/" + t;
    if x <= y {
      assert x[|a|] == '/' && y[|b|] == '/';
      assert |a| == |b|;
      assert a == x[..|a|] == y[..|a|] == b;
    }
    if a == b {
      PrefixCancel(a + "/", s, t);
    }
  }
}
