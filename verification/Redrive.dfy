// Settling owed registrations (crates/acp/src/external.rs): `settle`, `clear`
// and the paged redrive, first over a store nobody else writes, then over one
// that anybody writes between pages.

module Redrive {
  import opened Options
  import opened Text
  import opened RelationKeys
  import opened PendingKeys
  import opened TupleStores

  const REDRIVE_PAGE_BYTES := 256 * 1024

  datatype RedriveReport = RedriveReport(settled: nat, failed: nat)

  // What befalls one call, to the provider or to the store: nothing, an error
  // before it takes effect, or an error after it did.
  datatype Fault = NoFault | Refused | ReplyLost

  // The provider's objects, and how many calls have been made.
  datatype Remote = Remote(provider: map<Bytes, Bytes>, calls: nat)

  datatype Attempt = Attempt(ok: bool, after: Remote)

  // Settling one record, given how the coming calls fare: ask, register if need
  // be, clear. It fails exactly when one of its calls does.
  function Try(faults: nat -> Fault, at: Remote, key: Bytes, who: Bytes): Attempt
  {
    var asked := at.(calls := at.calls + 1);
    if faults(at.calls) != NoFault then Attempt(false, asked)
    else if key in at.provider then TryClear(faults, asked)
    else
      var told := Remote(if faults(asked.calls) == Refused then at.provider else at.provider[key := who], asked.calls + 1);
      if faults(asked.calls) != NoFault then Attempt(false, told) else TryClear(faults, told)
  }

  function TryClear(faults: nat -> Fault, at: Remote): Attempt
  {
    Attempt(faults(at.calls) == NoFault, at.(calls := at.calls + 1))
  }

  type Records = map<Bytes, PendingRegistration>

  ghost predicate RecordsKeyed(m: Records)
  {
    forall k :: k in m ==> Recordable(m[k]) && k == KeyOf(m[k])
  }

  // The owed records of the shared ACP namespace are what the redrive's prefix
  // selects there: every record, and no tuple.
  lemma PendingScanIsExact(kv: KeyValues, k: Bytes)
    requires WellKeyed(kv) && k in kv
    ensures PENDING_PREFIX <= k <==> k in OwedIn(kv)
    ensures RecordsKeyed(OwedIn(kv))
  {
    match kv[k]
    case TupleEntry(t) => FamiliesNeverMeet(t.collection, t.doc, t, [], [], []);
    case OwedEntry(r) => FamiliesNeverMeet([], [], RelationTuple([], [], [], []), r.policy, r.resource, r.doc);
  }

  // The keys of one page from `start`: the first ones at or after it, in order,
  // with none left out; none only when there is none.
  ghost predicate IsPage(m: Records, start: Bytes, keys: seq<Bytes>)
  {
    && Increasing(keys)
    && (forall i :: 0 <= i < |keys| ==> keys[i] in m && AtMost(start, keys[i]))
    && (keys == [] ==> forall k :: k in m ==> Less(k, start))
    && (keys != [] ==> forall k :: k in m && AtMost(start, k) && AtMost(k, keys[|keys| - 1]) ==> k in keys)
  }

  // `page` holds the records under `keys`, each naming the key it is under.
  ghost predicate Shows(m: Records, keys: seq<Bytes>, page: seq<PendingRegistration>)
  {
    && |page| == |keys|
    && forall i :: 0 <= i < |keys| ==>
         keys[i] in m && page[i] == m[keys[i]] && Recordable(page[i]) && KeyOf(page[i]) == keys[i]
  }

  // The encoded size of a page.
  function Size(encodedLen: PendingRegistration -> nat, page: seq<PendingRegistration>): nat
  {
    if page == [] then 0 else Size(encodedLen, page[..|page| - 1]) + encodedLen(page[|page| - 1])
  }

  // Without its last record the page is below the limit.
  ghost predicate WithinLimit(encodedLen: PendingRegistration -> nat, page: seq<PendingRegistration>)
  {
    page != [] ==> Size(encodedLen, page[..|page| - 1]) < REDRIVE_PAGE_BYTES
  }

  ghost predicate Exhausts(m: Records, start: Bytes, keys: seq<Bytes>)
  {
    forall k :: k in m && AtMost(start, k) ==> k in keys
  }

  lemma {:induction false} SizeMore(encodedLen: PendingRegistration -> nat, page: seq<PendingRegistration>,
                                    next: PendingRegistration)
    ensures Size(encodedLen, page + [next]) == Size(encodedLen, page) + encodedLen(next)
    ensures Size(encodedLen, page) < REDRIVE_PAGE_BYTES ==> WithinLimit(encodedLen, page + [next])
  {
    assert (page + [next])[..|page|] == page;
  }

  class ExternalDocumentAcp {
    // The owed records of the store, by key, and the provider's registered objects.
    var records: Records
    var provider: map<Bytes, Bytes>
    // How each call fares, to the provider or to clear a record, by call number.
    var calls: nat
    const faults: nat -> Fault
    // The size of a record's JSON.
    const encodedLen: PendingRegistration -> nat

    constructor (records: Records, provider: map<Bytes, Bytes>, faults: nat -> Fault, encodedLen: PendingRegistration -> nat)
      requires RecordsKeyed(records)
      ensures Valid() && this.records == records && this.provider == provider
    {
      this.records, this.provider, this.calls := records, provider, 0;
      this.faults, this.encodedLen := faults, encodedLen;
    }

    ghost predicate Valid()
      reads this
    {
      RecordsKeyed(records)
    }

    ghost function Now(): Remote
      reads this
    {
      Remote(provider, calls)
    }

    // `provider.is_doc_registered`
    method AskRegistered(key: Bytes) returns (answer: Option<bool>)
      modifies this`calls
      ensures answer == if faults(old(calls)) == NoFault then Some(key in provider) else None
      ensures calls == old(calls) + 1
    {
      answer := if faults(calls) == NoFault then Some(key in provider) else None;
      calls := calls + 1;
    }

    // `provider.register_doc_object`: true for `Ok` and for an object already
    // registered, false for any other error.
    method RegisterObject(who: Bytes, key: Bytes) returns (ok: bool)
      modifies this`calls, this`provider
      ensures ok <==> faults(old(calls)) == NoFault
      ensures provider == if faults(old(calls)) == Refused || key in old(provider) then old(provider)
                          else old(provider)[key := who]
      ensures calls == old(calls) + 1
    {
      var fault := faults(calls);
      calls := calls + 1;
      ok := fault == NoFault;
      if fault != Refused && key !in provider {
        provider := provider[key := who];
      }
    }

    // The record goes only if it is still the one that was read; a storage error
    // leaves it.
    method Clear(owed: PendingRegistration) returns (ok: bool)
      requires Recordable(owed)
      modifies this`records, this`calls
      ensures (ok <==> faults(old(calls)) == NoFault) && calls == old(calls) + 1
      ensures records == if ok && KeyOf(owed) in old(records) && old(records)[KeyOf(owed)] == owed
                        then old(records) - {KeyOf(owed)} else old(records)
    {
      ok := faults(calls) == NoFault;
      calls := calls + 1;
      var key := KeyOf(owed);
      if ok && key in records && records[key] == owed {
        records := records - {key};
      }
    }

    // Make sure the provider holds the object, under the owed creator if it is
    // new there; only then let the record go.
    method Settle(owed: PendingRegistration) returns (ok: bool)
      requires Recordable(owed)
      modifies this`records, this`provider, this`calls
      ensures Attempt(ok, Now()) == Try(faults, old(Now()), KeyOf(owed), owed.creator)
      // it makes calls until one fails, and needs two or three
      ensures ok <==> !(exists n :: old(calls) <= n < calls && faults(n) != NoFault)
      ensures old(calls) < calls && (forall n :: old(calls) <= n < calls - 1 ==> faults(n) == NoFault)
      ensures ok ==> calls == old(calls) + if KeyOf(owed) in old(provider) then 2 else 3
      // an object already there keeps its owner; a new one is the creator's
      ensures provider == if KeyOf(owed) !in old(provider) && calls >= old(calls) + 2 && faults(old(calls) + 1) != Refused
                          then old(provider)[KeyOf(owed) := owed.creator] else old(provider)
      ensures ok && KeyOf(owed) !in old(provider) ==> provider == old(provider)[KeyOf(owed) := owed.creator]
      ensures records == if ok && KeyOf(owed) in old(records) && old(records)[KeyOf(owed)] == owed
                        then old(records) - {KeyOf(owed)} else old(records)
    {
      var registered := AskRegistered(KeyOf(owed));
      if registered.None? { return false; }
      if !registered.value {
        ok := RegisterObject(owed.creator, KeyOf(owed));
        if !ok { return; }
      }
      ok := Clear(owed);
    }

    // The next page, read until it is full or the scan ends: only the last
    // record takes it over the limit, and below the limit nothing is left.
    method OwedPage(start: Bytes) returns (page: seq<PendingRegistration>, ghost keys: seq<Bytes>)
      requires Valid()
      ensures IsPage(records, start, keys) && Shows(records, keys, page)
      ensures WithinLimit(encodedLen, page)
      ensures Size(encodedLen, page) >= REDRIVE_PAGE_BYTES || Exhausts(records, start, keys)
    {
      ghost var m := records;
      var left := set k | k in records && AtMost(start, k);
      page, keys := [], [];
      var bytes := 0;
      while bytes < REDRIVE_PAGE_BYTES
        invariant PageSoFar(m, start, left, keys) && Shows(m, keys, page) && bytes == Size(encodedLen, page)
        invariant WithinLimit(encodedLen, page)
        decreases left
      {
        if left == {} { break; }
        var k := Least(left);
        TakeNext(m, start, left, keys, page, encodedLen, k);
        var entry := records[k];
        bytes := bytes + encodedLen(entry);
        page, keys := page + [entry], keys + [k];
        left := left - {k};
      }
      PageDone(m, start, left, keys);
    }

    // One pass, page after page, over a store nobody else writes. It ends; it
    // attempts every record exactly once, in key order; exactly the records whose
    // attempt failed are left, as they were, one for each call that went wrong;
    // the report counts both kinds; and what was settled is registered, under its
    // creator unless it was there before.
    method RedriveOwed() returns (report: RedriveReport, ghost attempted: seq<Bytes>, ghost failed: set<Bytes>)
      requires Valid()
      modifies this`records, this`provider, this`calls
      ensures PassResult(Pass(faults, old(Now()), old(records)), records, Now(), attempted, failed, report)
      ensures Valid() && Grew(old(provider), provider)
    {
      ghost var pass := Pass(faults, Now(), records);
      attempted, failed := [], {};
      report := RedriveReport(0, 0);
      var start := PENDING_PREFIX;
      NothingBeforeThePrefix(pass.all);
      NothingAttempted(pass);
      var more := true;
      while more
        invariant more ==> Progress(pass, records, Now(), attempted, failed, report) && UpTo(pass.all, attempted, start)
        invariant !more ==> PassResult(pass, records, Now(), attempted, failed, report) && Valid()
        invariant Grew(old(provider), provider)
        decreases more, pass.all.Keys - ToSet(attempted)
      {
        more, start, report, attempted, failed := RedrivePage(start, report, pass, attempted, failed);
      }
    }

    // One turn of the redrive's loop: read a page and settle it, or stop at an
    // empty one.
    method RedrivePage(from: Bytes, sofar: RedriveReport, ghost pass: Pass, ghost before: seq<Bytes>, ghost lost: set<Bytes>)
      returns (more: bool, start: Bytes, report: RedriveReport, ghost attempted: seq<Bytes>, ghost failed: set<Bytes>)
      requires RecordsKeyed(pass.all) && pass.faults == faults
      requires Progress(pass, records, Now(), before, lost, sofar) && UpTo(pass.all, before, from)
      modifies this`records, this`provider, this`calls
      ensures Grew(old(provider), provider)
      ensures more ==> Progress(pass, records, Now(), attempted, failed, report) && UpTo(pass.all, attempted, start)
      ensures more ==> pass.all.Keys - ToSet(attempted) < pass.all.Keys - ToSet(before)
      ensures !more ==> PassResult(pass, records, Now(), attempted, failed, report) && Valid()
    {
      StillKeyed(pass, records, Now(), before, lost, sofar);
      ghost var keys;
      var page;
      page, keys := OwedPage(from);
      if page == [] {
        PassEnds(pass, records, Now(), before, lost, sofar, from);
        return false, from, sofar, before, lost;
      }
      PageContinues(pass, records, Now(), before, lost, sofar, from, keys, page);
      more, start := true, KeyOf(page[|page| - 1]) + ['\0'];
      PageAttempted(pass.all, before, keys, from, start);
      report, failed := SettlePage(page, sofar, keys, pass, before, lost);
      attempted := before + keys;
    }

    // The inner loop of the redrive: settle each record of one page in turn.
    method SettlePage(page: seq<PendingRegistration>, sofar: RedriveReport, ghost keys: seq<Bytes>, ghost pass: Pass,
                      ghost before: seq<Bytes>, ghost lost: set<Bytes>)
      returns (report: RedriveReport, ghost failed: set<Bytes>)
      requires Progress(pass, records, Now(), before, lost, sofar) && pass.faults == faults
      requires Continues(pass.all, before, keys) && Shows(pass.all, keys, page)
      modifies this`records, this`provider, this`calls
      ensures Progress(pass, records, Now(), before + keys, failed, report)
      ensures Grew(old(provider), provider)
    {
      report, failed := sofar, lost;
      TriedNone(before, keys);
      for n := 0 to |page|
        invariant Progress(pass, records, Now(), Tried(before, keys, n), failed, report)
        invariant Grew(old(provider), provider)
      {
        NextAttempt(pass.all, before, keys, n);
        report, failed := SettleOne(page[n], report, keys[n], pass, Tried(before, keys, n), failed);
      }
    }

    method SettleOne(owed: PendingRegistration, sofar: RedriveReport, ghost key: Bytes, ghost pass: Pass,
                     ghost attempted: seq<Bytes>, ghost lost: set<Bytes>)
      returns (report: RedriveReport, ghost failed: set<Bytes>)
      requires Recordable(owed) && KeyOf(owed) == key && pass.faults == faults
      requires Progress(pass, records, Now(), attempted, lost, sofar)
      requires key in pass.all && pass.all[key] == owed && key !in attempted && Increasing(attempted + [key])
      modifies this`records, this`provider, this`calls
      ensures Progress(pass, records, Now(), attempted + [key], failed, report)
      ensures Grew(old(provider), provider)
    {
      var ok := Settle(owed);
      report := Count(sofar, ok);
      failed := if ok then lost else lost + {key};
      AttemptOne(pass, old(records), records, old(Now()), attempted, lost, sofar, key);
    }

    // The pass while others write: page `i` is read from whatever the store then
    // holds, `stores[i]`, and settling it leaves `left[i]`. Attempted keys strictly
    // increase, so none is attempted twice; what settling takes away is registered,
    // under its creator if it is new there, and counted; every call that goes wrong
    // is one failure; and once the pass has ended, every record that was there at
    // each page has been attempted.
    method RedriveAmidWriters(stores: seq<Records>)
      returns (ended: bool, report: RedriveReport, ghost pages: seq<seq<Bytes>>, ghost left: seq<Records>)
      requires AllKeyed(stores, |stores|)
      modifies this`records, this`provider, this`calls
      ensures ReadsPages(stores, pages) && (ended <==> IsPass(stores, pages)) && (!ended ==> |pages| == |stores|)
      ensures Increasing(KeysOf(pages, |pages|)) && report.settled + report.failed == |KeysOf(pages, |pages|)|
      ensures ended ==> MissesNone(stores, pages)
      ensures Settles(faults, stores, pages, left, old(Now()), Now(), report)
    {
      var start;
      ended, start, report, pages, left := ReadAmidWriters(stores);
      AmidResult(stores, pages, start, ended, report);
    }

    // The loop itself: one page after another, until one is empty.
    method ReadAmidWriters(stores: seq<Records>)
      returns (ended: bool, start: Bytes, report: RedriveReport, ghost pages: seq<seq<Bytes>>, ghost left: seq<Records>)
      requires AllKeyed(stores, |stores|)
      modifies this`records, this`provider, this`calls
      ensures Amid(stores, pages, start, ended, report) && (ended || |pages| == |stores|)
      ensures Settles(faults, stores, pages, left, old(Now()), Now(), report)
    {
      AmidNone(stores);
      ghost var begun := Now();
      ended, start, report, pages, left := false, PENDING_PREFIX, RedriveReport(0, 0), [], [];
      SettlesNone(faults, stores, begun);
      for n := 0 to |stores|
        invariant |pages| == n && !ended && Amid(stores, pages, start, false, report)
        invariant Settles(faults, stores, pages, left, begun, Now(), report)
      {
        ended, start, report, pages, left := PageAmidWriters(stores, n, start, report, pages, left, begun);
        if ended { return; }
      }
    }

    method PageAmidWriters(stores: seq<Records>, n: nat, from: Bytes, sofar: RedriveReport, ghost before: seq<seq<Bytes>>,
                           ghost leftBefore: seq<Records>, ghost begun: Remote)
      returns (ended: bool, start: Bytes, report: RedriveReport, ghost pages: seq<seq<Bytes>>, ghost left: seq<Records>)
      requires n == |before| < |stores| && AllKeyed(stores, |stores|) && Amid(stores, before, from, false, sofar)
      requires Settles(faults, stores, before, leftBefore, begun, Now(), sofar)
      modifies this`records, this`provider, this`calls
      ensures |pages| == n + 1 && Amid(stores, pages, start, ended, report)
      ensures Settles(faults, stores, pages, left, begun, Now(), report)
    {
      KeyedOne(stores, |stores|, n);
      records := stores[n];
      ghost var keys;
      ended, start, report, keys := NextPage(from, sofar);
      pages, left := before + [keys], leftBefore + [records];
      AmidMore(stores, before, from, sofar, keys, start, report);
      SettlesMore(faults, stores, before, leftBefore, begun, old(Now()), sofar, keys, records, Now(), report);
    }

    // One turn of the loop on the store as it is: read a page, settle it.
    method NextPage(from: Bytes, sofar: RedriveReport)
      returns (ended: bool, start: Bytes, report: RedriveReport, ghost keys: seq<Bytes>)
      requires Valid()
      modifies this`records, this`provider, this`calls
      ensures IsPage(old(records), from, keys) && (ended <==> keys == [])
      ensures !ended ==> start == keys[|keys| - 1] + ['\0']
      ensures report.settled + report.failed == sofar.settled + sofar.failed + |keys|
      ensures SettlesPage(faults, old(records), keys, records, old(Now()), Now(), sofar, report)
    {
      var page;
      page, keys := OwedPage(from);
      ended, start, report := page == [], from, sofar;
      if !ended {
        start := KeyOf(page[|page| - 1]) + ['\0'];
      }
      report := SettleEach(page, sofar, keys);
    }

    method SettleEach(page: seq<PendingRegistration>, sofar: RedriveReport, ghost keys: seq<Bytes>)
      returns (report: RedriveReport)
      requires Shows(records, keys, page) && Increasing(keys)
      modifies this`records, this`provider, this`calls
      ensures report.settled + report.failed == sofar.settled + sofar.failed + |page|
      ensures SettlesPage(faults, old(records), keys, records, old(Now()), Now(), sofar, report)
    {
      report := sofar;
      for n := 0 to |page|
        invariant report.settled + report.failed == sofar.settled + sofar.failed + n
        invariant SettlesSome(faults, old(records), keys, n, records, old(Now()), Now(), sofar, report)
      {
        StillThere(old(records), keys, n, records);
        report := SettleNth(page[n], report, sofar, keys, n, old(records), old(Now()));
      }
    }

    method SettleNth(owed: PendingRegistration, counted: RedriveReport, ghost sofar: RedriveReport, ghost keys: seq<Bytes>,
                     ghost n: nat, ghost m: Records, ghost begun: Remote)
      returns (report: RedriveReport)
      requires SettlesSome(faults, m, keys, n, records, begun, Now(), sofar, counted)
      requires Increasing(keys) && n < |keys| && Recordable(owed) && KeyOf(owed) == keys[n]
      requires keys[n] in m && m[keys[n]] == owed
      modifies this`records, this`provider, this`calls
      ensures report.settled + report.failed == counted.settled + counted.failed + 1
      ensures SettlesSome(faults, m, keys, n + 1, records, begun, Now(), sofar, report)
    {
      StillThere(m, keys, n, records);
      TryRegisters(faults, Now(), keys[n], owed.creator);
      var ok := Settle(owed);
      report := Count(counted, ok);
      SettleNext(faults, m, keys, n, old(records), records, begun, old(Now()), Attempt(ok, Now()), sofar, counted);
    }
  }

  // Objects stay registered, with their owners.
  ghost predicate Grew(provider: map<Bytes, Bytes>, provider': map<Bytes, Bytes>)
  {
    forall k :: k in provider ==> k in provider' && provider'[k] == provider[k]
  }

  function Count(report: RedriveReport, ok: bool): RedriveReport
  {
    if ok then report.(settled := report.settled + 1) else report.(failed := report.failed + 1)
  }

  // `keys` are the least ones at or after `start`, and `left` the rest.
  ghost predicate PageSoFar(m: Records, start: Bytes, left: set<Bytes>, keys: seq<Bytes>)
  {
    && Increasing(keys)
    && (forall i :: 0 <= i < |keys| ==> keys[i] in m && AtMost(start, keys[i]))
    && (forall k :: k in left ==> k in m && AtMost(start, k))
    && (forall k :: k in m && AtMost(start, k) ==> k in left || k in keys)
    && (forall i, k :: 0 <= i < |keys| && k in left ==> Less(keys[i], k))
  }

  lemma TakeLeast(m: Records, start: Bytes, left: set<Bytes>, keys: seq<Bytes>, k: Bytes)
    requires PageSoFar(m, start, left, keys) && IsLeast(k, left)
    ensures PageSoFar(m, start, left - {k}, keys + [k])
  {
    forall j | j in left - {k} ensures Less(k, j) {
      assert j in left && AtMost(k, j);
      LessTotal(k, j);
    }
  }

  lemma ShowOneMore(m: Records, keys: seq<Bytes>, page: seq<PendingRegistration>, k: Bytes)
    requires RecordsKeyed(m) && Shows(m, keys, page) && k in m
    ensures Shows(m, keys + [k], page + [m[k]])
  {
  }

  lemma {:induction false} TakeNext(m: Records, start: Bytes, left: set<Bytes>, keys: seq<Bytes>,
                                    page: seq<PendingRegistration>, encodedLen: PendingRegistration -> nat, k: Bytes)
    requires RecordsKeyed(m) && PageSoFar(m, start, left, keys) && Shows(m, keys, page) && IsLeast(k, left)
    requires Size(encodedLen, page) < REDRIVE_PAGE_BYTES
    ensures PageSoFar(m, start, left - {k}, keys + [k]) && Shows(m, keys + [k], page + [m[k]])
    ensures Size(encodedLen, page + [m[k]]) == Size(encodedLen, page) + encodedLen(m[k])
    ensures WithinLimit(encodedLen, page + [m[k]])
  {
    TakeLeast(m, start, left, keys, k);
    ShowOneMore(m, keys, page, k);
    SizeMore(encodedLen, page, m[k]);
  }

  lemma PageDone(m: Records, start: Bytes, left: set<Bytes>, keys: seq<Bytes>)
    requires PageSoFar(m, start, left, keys) && (keys == [] ==> left == {})
    ensures IsPage(m, start, keys) && (left == {} ==> Exhausts(m, start, keys))
  {
    if keys != [] {
      var last := keys[|keys| - 1];
      assert forall k :: k in left ==> Less(last, k);
    }
  }

  // ----- One pass over a quiet store -----

  // A pass: how its calls fare, the provider at its start and what was owed then.
  datatype Pass = Pass(faults: nat -> Fault, begun: Remote, all: Records)

  datatype Tally = Tally(failed: set<Bytes>, remote: Remote)

  // Attempting `keys` in turn: which fail, and where that leaves the provider.
  function Attempts(pass: Pass, keys: seq<Bytes>): Tally
  {
    if keys == [] then Tally({}, pass.begun)
    else
      var before, k := Attempts(pass, keys[..|keys| - 1]), keys[|keys| - 1];
      if k !in pass.all then before
      else
        var tried := Try(pass.faults, before.remote, k, pass.all[k].creator);
        Tally(if tried.ok then before.failed else before.failed + {k}, tried.after)
  }

  function Remaining(now: Records, attempted: seq<Bytes>): set<Bytes>
  {
    set k | k in now && k in attempted
  }

  // What was registered keeps its owner, and what is new there belongs to the
  // creator its record names.
  ghost predicate OwnersKept(pass: Pass, provider: map<Bytes, Bytes>)
  {
    && Grew(pass.begun.provider, provider)
    && forall k :: k in provider && k !in pass.begun.provider ==> k in pass.all && provider[k] == pass.all[k].creator
  }

  // How many of the calls numbered `from` up to `to` go wrong.
  function Faulted(faults: nat -> Fault, from: nat, to: nat): nat
    decreases to - from
  {
    if to <= from then 0 else Faulted(faults, from, to - 1) + if faults(to - 1) != NoFault then 1 else 0
  }

  // What is no longer owed is registered, new objects under their creators, and
  // each call that went wrong failed one attempt.
  ghost predicate Delivered(pass: Pass, now: Records, remote: Remote, failed: set<Bytes>)
  {
    && (forall k :: k in pass.all && k !in now ==> k in remote.provider)
    && OwnersKept(pass, remote.provider)
    && pass.begun.calls <= remote.calls && |failed| == Faulted(pass.faults, pass.begun.calls, remote.calls)
  }

  // `now` is still owed; of the `attempted` records the `failed` ones are.
  ghost predicate Worked(all: Records, now: Records, attempted: seq<Bytes>, failed: set<Bytes>, report: RedriveReport)
  {
    && Increasing(attempted)
    && (forall k :: k in attempted ==> k in all)
    && (forall k :: k in now ==> k in all && now[k] == all[k])
    && (forall k :: k in all && k !in attempted ==> k in now)
    && Remaining(now, attempted) == failed
    && report.settled + report.failed == |attempted| && report.failed == |failed|
  }

  ghost predicate Progress(pass: Pass, now: Records, remote: Remote, attempted: seq<Bytes>, failed: set<Bytes>,
                           report: RedriveReport)
  {
    && Worked(pass.all, now, attempted, failed, report) && Delivered(pass, now, remote, failed)
    && Attempts(pass, attempted) == Tally(failed, remote)
  }

  // Exactly the keys before `start` have been attempted.
  ghost predicate UpTo(all: Records, attempted: seq<Bytes>, start: Bytes)
  {
    forall k :: k in all ==> (k in attempted <==> Less(k, start))
  }

  lemma NothingBeforeThePrefix(m: Records)
    requires RecordsKeyed(m)
    ensures UpTo(m, [], PENDING_PREFIX)
  {
    forall k | k in m ensures !Less(k, PENDING_PREFIX) {
      FamiliesNeverMeet([], [], RelationTuple([], [], [], []), m[k].policy, m[k].resource, m[k].doc);
      PrefixAtMost(PENDING_PREFIX, k);
    }
  }

  lemma {:induction false} StillKeyed(pass: Pass, now: Records, remote: Remote, attempted: seq<Bytes>, failed: set<Bytes>,
                   report: RedriveReport)
    requires RecordsKeyed(pass.all) && Progress(pass, now, remote, attempted, failed, report)
    ensures RecordsKeyed(now)
  {
  }

  lemma {:induction false} NothingAttempted(pass: Pass)
    ensures Progress(pass, pass.all, pass.begun, [], {}, RedriveReport(0, 0))
  {
  }

  // What a pass over a quiet store leaves.
  ghost predicate PassResult(pass: Pass, now: Records, remote: Remote, attempted: seq<Bytes>, failed: set<Bytes>,
                             report: RedriveReport)
  {
    // every record was attempted, once, in key order
    && Increasing(attempted) && ToSet(attempted) == pass.all.Keys
    // exactly those whose attempt failed remain, as they were
    && Attempts(pass, attempted) == Tally(failed, remote)
    && now.Keys == failed && (forall k :: k in now ==> k in pass.all && now[k] == pass.all[k])
    // the report counts them
    && report.failed == |failed| && report.settled == |pass.all.Keys - failed|
    // what was settled is registered, under its creator if it is new there, and
    // every call that went wrong failed one attempt
    && Delivered(pass, now, remote, failed)
  }

  // An attempt keeps what is registered, and one that succeeds adds its object,
  // under `who`. It fails with the first of its calls that does.
  ghost predicate Tries(faults: nat -> Fault, at: Remote, key: Bytes, who: Bytes, tried: Attempt)
  {
    && Grew(at.provider, tried.after.provider) && (tried.ok ==> key in tried.after.provider)
    && (forall k :: k in tried.after.provider && k !in at.provider ==> k == key && tried.after.provider[k] == who)
    && at.calls <= tried.after.calls && Faulted(faults, at.calls, tried.after.calls) == if tried.ok then 0 else 1
  }

  lemma TryRegisters(faults: nat -> Fault, at: Remote, key: Bytes, who: Bytes)
    ensures Tries(faults, at, key, who, Try(faults, at, key, who))
  {
    var n := at.calls;
    assert Faulted(faults, n, n) == 0;
    assert Faulted(faults, n, n + 1) == if faults(n) != NoFault then 1 else 0;
    assert Faulted(faults, n, n + 2) == Faulted(faults, n, n + 1) + if faults(n + 1) != NoFault then 1 else 0;
    assert Faulted(faults, n, n + 3) == Faulted(faults, n, n + 2) + if faults(n + 2) != NoFault then 1 else 0;
  }

  lemma {:induction false} FaultedAdds(faults: nat -> Fault, a: nat, b: nat, c: nat)
    requires a <= b <= c
    ensures Faulted(faults, a, c) == Faulted(faults, a, b) + Faulted(faults, b, c)
  {
    if b < c { FaultedAdds(faults, a, b, c - 1); }
  }

  lemma {:induction false} AttemptsStep(pass: Pass, keys: seq<Bytes>, k: Bytes)
    requires k in pass.all
    ensures var before := Attempts(pass, keys);
            var tried := Try(pass.faults, before.remote, k, pass.all[k].creator);
            Attempts(pass, keys + [k]) == Tally(if tried.ok then before.failed else before.failed + {k}, tried.after)
  {
    assert (keys + [k])[..|keys|] == keys;
  }

  lemma {:induction false} AttemptOne(pass: Pass, now: Records, now': Records, remote: Remote, attempted: seq<Bytes>, failed: set<Bytes>,
                   report: RedriveReport, k: Bytes)
    requires Progress(pass, now, remote, attempted, failed, report)
    requires k in pass.all && k !in attempted && Increasing(attempted + [k])
    requires now' == if Try(pass.faults, remote, k, pass.all[k].creator).ok then now - {k} else now
    ensures var tried := Try(pass.faults, remote, k, pass.all[k].creator);
            && Grew(remote.provider, tried.after.provider)
            && Progress(pass, now', tried.after, attempted + [k], if tried.ok then failed else failed + {k},
                        Count(report, tried.ok))
  {
    var tried := Try(pass.faults, remote, k, pass.all[k].creator);
    AttemptsStep(pass, attempted, k);
    WorkOne(pass.all, now, now', attempted, failed, report, k, tried.ok);
    DeliverOne(pass, now, now', remote, failed, k);
  }

  lemma {:induction false} WorkOne(all: Records, now: Records, now': Records, attempted: seq<Bytes>, failed: set<Bytes>,
                                   report: RedriveReport, k: Bytes, ok: bool)
    requires Worked(all, now, attempted, failed, report) && k in all && k !in attempted && Increasing(attempted + [k])
    requires now' == if ok then now - {k} else now
    ensures Worked(all, now', attempted + [k], if ok then failed else failed + {k}, Count(report, ok)) && k !in failed
  {
    assert k in now;
    RemainingStep(now, now', attempted, k, ok);
    assert k !in failed;
  }

  lemma {:induction false} DeliverOne(pass: Pass, now: Records, now': Records, remote: Remote, failed: set<Bytes>, k: Bytes)
    requires Delivered(pass, now, remote, failed) && k in pass.all && k !in failed
    requires now' == if Try(pass.faults, remote, k, pass.all[k].creator).ok then now - {k} else now
    ensures var tried := Try(pass.faults, remote, k, pass.all[k].creator);
            && Grew(remote.provider, tried.after.provider)
            && Delivered(pass, now', tried.after, if tried.ok then failed else failed + {k})
  {
    var tried := Try(pass.faults, remote, k, pass.all[k].creator);
    TryRegisters(pass.faults, remote, k, pass.all[k].creator);
    FaultedAdds(pass.faults, pass.begun.calls, remote.calls, tried.after.calls);
  }

  lemma RemainingStep(now: Records, now': Records, attempted: seq<Bytes>, k: Bytes, ok: bool)
    requires k in now && k !in attempted && now' == if ok then now - {k} else now
    ensures Remaining(now', attempted + [k]) == Remaining(now, attempted) + if ok then {} else {k}
  {
  }

  // The page's keys come after everything attempted so far.
  ghost predicate Continues(all: Records, before: seq<Bytes>, keys: seq<Bytes>)
  {
    Increasing(before + keys) && forall i :: 0 <= i < |keys| ==> keys[i] in all && keys[i] !in before
  }

  // The page holds every key from `from` to its last one.
  ghost predicate Covers(all: Records, from: Bytes, keys: seq<Bytes>)
    requires keys != []
  {
    forall k :: k in all && AtMost(from, k) && AtMost(k, keys[|keys| - 1]) ==> k in keys
  }

  lemma {:induction false} PageContinues(pass: Pass, now: Records, remote: Remote, before: seq<Bytes>, failed: set<Bytes>,
                      report: RedriveReport, start: Bytes, keys: seq<Bytes>, page: seq<PendingRegistration>)
    requires Progress(pass, now, remote, before, failed, report) && IsPage(now, start, keys) && Shows(now, keys, page)
    requires UpTo(pass.all, before, start) && page != []
    ensures Continues(pass.all, before, keys) && Covers(pass.all, start, keys) && Shows(pass.all, keys, page)
  {
    forall i, j | 0 <= i < |before| && 0 <= j < |keys| ensures Less(before[i], keys[j]) {
      assert before[i] in before;
      LessThenAtMost(before[i], start, keys[j]);
    }
  }

  // What has been attempted once `n` of the page's keys have.
  function Tried(before: seq<Bytes>, keys: seq<Bytes>, n: nat): seq<Bytes>
    requires n <= |keys|
  {
    before + keys[..n]
  }

  lemma TriedNone(before: seq<Bytes>, keys: seq<Bytes>)
    ensures Tried(before, keys, 0) == before && Tried(before, keys, |keys|) == before + keys
  {
    assert keys[..|keys|] == keys;
  }

  lemma NextAttempt(all: Records, before: seq<Bytes>, keys: seq<Bytes>, n: nat)
    requires Continues(all, before, keys) && n < |keys|
    ensures keys[n] in all && keys[n] !in Tried(before, keys, n) && Increasing(Tried(before, keys, n) + [keys[n]])
    ensures Tried(before, keys, n + 1) == Tried(before, keys, n) + [keys[n]]
  {
    var k, done := keys[n], Tried(before, keys, n);
    assert keys[..n + 1] == keys[..n] + [k];
    forall i | 0 <= i < |done| ensures Less(done[i], k) && done[i] != k {
      assert done[i] == (before + keys)[i] && k == (before + keys)[|before| + n];
      LessIrreflexive(k);
    }
    forall i, j | 0 <= i < j < |done| ensures Less(done[i], done[j]) {
      assert done[i] == (before + keys)[i] && done[j] == (before + keys)[j];
    }
  }

  lemma PageAttempted(all: Records, before: seq<Bytes>, keys: seq<Bytes>, from: Bytes, start: Bytes)
    requires Continues(all, before, keys) && keys != [] && Covers(all, from, keys)
    requires start == keys[|keys| - 1] + ['\0'] && UpTo(all, before, from)
    ensures UpTo(all, before + keys, start)
    ensures all.Keys - ToSet(before + keys) < all.Keys - ToSet(before)
  {
    var attempted, last := before + keys, keys[|keys| - 1];
    assert attempted[|attempted| - 1] == last && last in attempted;
    forall k | k in all ensures k in attempted <==> Less(k, start) {
      SuccessorIsTight(last, k);
      if k in attempted {
        UpToLast(attempted, k);
      }
    }
    assert last in all && last !in ToSet(before) && last in ToSet(attempted);
    forall x | x in before ensures x in attempted {
      var i :| 0 <= i < |before| && before[i] == x;
      assert attempted[i] == x;
    }
  }

  lemma UpToLast(keys: seq<Bytes>, k: Bytes)
    requires Increasing(keys) && k in keys
    ensures !Less(keys[|keys| - 1], k)
  {
    var i :| 0 <= i < |keys| && keys[i] == k;
    if i == |keys| - 1 { LessIrreflexive(k); } else { NotBoth(k, keys[|keys| - 1]); }
  }

  lemma NotBoth(a: Bytes, b: Bytes)
    requires Less(a, b)
    ensures !Less(b, a)
  {
    if Less(b, a) { LessTransitive(a, b, a); LessIrreflexive(a); }
  }

  lemma {:induction false} DistinctCount(keys: seq<Bytes>)
    requires Increasing(keys)
    ensures |ToSet(keys)| == |keys|
  {
    if keys != [] {
      var rest, last := keys[..|keys| - 1], keys[|keys| - 1];
      DistinctCount(rest);
      assert keys == rest + [last];
      ToSetAppend(rest, last);
      forall i | 0 <= i < |rest| ensures rest[i] != last {
        assert Less(keys[i], last);
        LessIrreflexive(last);
      }
    }
  }

  lemma {:induction false} PassEnds(pass: Pass, now: Records, remote: Remote, attempted: seq<Bytes>, failed: set<Bytes>,
                 report: RedriveReport, start: Bytes)
    requires Progress(pass, now, remote, attempted, failed, report)
    requires UpTo(pass.all, attempted, start) && IsPage(now, start, [])
    ensures PassResult(pass, now, remote, attempted, failed, report)
  {
    WorkEnds(pass.all, now, attempted, failed, report, start);
  }

  lemma {:induction false} WorkEnds(all: Records, now: Records, attempted: seq<Bytes>, failed: set<Bytes>,
                                    report: RedriveReport, start: Bytes)
    requires Worked(all, now, attempted, failed, report) && UpTo(all, attempted, start) && IsPage(now, start, [])
    ensures ToSet(attempted) == all.Keys && now.Keys == failed && report.settled == |all.Keys - failed|
  {
    AllAttempted(all, now, attempted, start);
    assert ToSet(attempted) == all.Keys && failed == now.Keys;
    PassCounts(all.Keys, attempted, failed, report);
  }

  lemma {:induction false} AllAttempted(all: Records, now: Records, attempted: seq<Bytes>, start: Bytes)
    requires UpTo(all, attempted, start) && IsPage(now, start, [])
    requires forall k :: k in all && k !in attempted ==> k in now
    ensures forall k :: k in all ==> k in attempted
  {
    forall k | k in all ensures k in attempted {
      assert k in now ==> Less(k, start);
    }
  }

  lemma {:induction false} PassCounts(all: set<Bytes>, attempted: seq<Bytes>, failed: set<Bytes>, report: RedriveReport)
    requires Increasing(attempted) && ToSet(attempted) == all && failed <= all
    requires report.settled + report.failed == |attempted| && report.failed == |failed|
    ensures report.settled == |all - failed|
  {
    DistinctCount(attempted);
    assert all == (all - failed) + failed;
  }

  // With no faults everything is settled.
  lemma {:induction false} NoFaultsNoFailures(pass: Pass, keys: seq<Bytes>)
    requires forall n :: pass.faults(n) == NoFault
    ensures Attempts(pass, keys).failed == {}
  {
    if keys != [] { NoFaultsNoFailures(pass, keys[..|keys| - 1]); }
  }

  // ----- One pass while others write -----

  // Where the pass resumes after its first `i` pages.
  function Start(pages: seq<seq<Bytes>>, i: nat): Bytes
    requires i <= |pages|
  {
    if i == 0 || pages[i - 1] == [] then PENDING_PREFIX else pages[i - 1][|pages[i - 1]| - 1] + ['\0']
  }

  ghost predicate PageAt(stores: seq<Records>, pages: seq<seq<Bytes>>, i: nat)
  {
    i < |stores| && i < |pages| && IsPage(stores[i], Start(pages, i), pages[i])
  }

  // Page `i`, given by its keys, was read from `stores[i]`; between pages the
  // store may have changed in any way. An empty page is the last.
  ghost predicate ReadsPages(stores: seq<Records>, pages: seq<seq<Bytes>>)
  {
    && |pages| <= |stores|
    && (forall i :: 0 <= i < |pages| - 1 ==> pages[i] != [])
    && (forall i :: 0 <= i < |pages| ==> PageAt(stores, pages, i))
  }

  // A whole pass ends with an empty page.
  ghost predicate IsPass(stores: seq<Records>, pages: seq<seq<Bytes>>)
  {
    ReadsPages(stores, pages) && pages != [] && pages[|pages| - 1] == []
  }

  // Owed whenever a page was read.
  ghost predicate PresentThroughout(stores: seq<Records>, pages: seq<seq<Bytes>>, key: Bytes)
  {
    PENDING_PREFIX <= key && forall i :: 0 <= i < |pages| && i < |stores| ==> key in stores[i]
  }

  // The pass so far: where it goes on from, or that it has ended.
  ghost predicate Amid(stores: seq<Records>, pages: seq<seq<Bytes>>, start: Bytes, ended: bool, report: RedriveReport)
  {
    && ReadsPages(stores, pages) && (ended <==> IsPass(stores, pages))
    && (!ended ==> start == Start(pages, |pages|) && (pages != [] ==> pages[|pages| - 1] != []))
    && report.settled + report.failed == |KeysOf(pages, |pages|)|
  }

  lemma {:induction false} AmidResult(stores: seq<Records>, pages: seq<seq<Bytes>>, start: Bytes, ended: bool,
                                      report: RedriveReport)
    requires Amid(stores, pages, start, ended, report)
    ensures ReadsPages(stores, pages) && (ended <==> IsPass(stores, pages))
    ensures Increasing(KeysOf(pages, |pages|)) && report.settled + report.failed == |KeysOf(pages, |pages|)|
    ensures ended ==> MissesNone(stores, pages)
  {
    NoKeyTwice(stores, pages, |pages|);
    if ended { PassMissesNone(stores, pages); }
  }

  lemma AmidNone(stores: seq<Records>)
    ensures Amid(stores, [], PENDING_PREFIX, false, RedriveReport(0, 0))
  {
  }

  ghost predicate AllKeyed(stores: seq<Records>, n: nat)
    requires n <= |stores|
  {
    n == 0 || (RecordsKeyed(stores[n - 1]) && AllKeyed(stores, n - 1))
  }

  lemma {:induction false} KeyedOne(stores: seq<Records>, n: nat, i: nat)
    requires i < n <= |stores| && AllKeyed(stores, n)
    ensures RecordsKeyed(stores[i])
  {
    if i < n - 1 { KeyedOne(stores, n - 1, i); }
  }

  // One more page, from where the last one ended.
  lemma {:induction false} ReadMore(stores: seq<Records>, pages: seq<seq<Bytes>>, keys: seq<Bytes>)
    requires ReadsPages(stores, pages) && |pages| < |stores| && (pages != [] ==> pages[|pages| - 1] != [])
    requires IsPage(stores[|pages|], Start(pages, |pages|), keys)
    ensures ReadsPages(stores, pages + [keys]) && (IsPass(stores, pages + [keys]) <==> keys == [])
    ensures KeysOf(pages + [keys], |pages| + 1) == KeysOf(pages, |pages|) + keys
  {
    var more := pages + [keys];
    forall i | 0 <= i < |more| ensures PageAt(stores, more, i) {
      PageAtMore(stores, pages, keys, i);
    }
    forall i | 0 <= i < |more| - 1 ensures more[i] != [] {
      assert more[i] == pages[i];
    }
    SameKeys(pages, keys, |pages|);
  }

  lemma {:induction false} PageAtMore(stores: seq<Records>, pages: seq<seq<Bytes>>, keys: seq<Bytes>, i: nat)
    requires ReadsPages(stores, pages) && i <= |pages| < |stores|
    requires IsPage(stores[|pages|], Start(pages, |pages|), keys)
    ensures PageAt(stores, pages + [keys], i)
  {
    SameStart(pages, keys, i);
    assert i < |pages| ==> PageAt(stores, pages, i);
  }

  lemma {:induction false} SameStart(pages: seq<seq<Bytes>>, keys: seq<Bytes>, i: nat)
    requires i <= |pages|
    ensures Start(pages + [keys], i) == Start(pages, i)
  {
    if i > 0 { assert (pages + [keys])[i - 1] == pages[i - 1]; }
  }

  lemma {:induction false} AmidMore(stores: seq<Records>, before: seq<seq<Bytes>>, from: Bytes, sofar: RedriveReport,
                                    keys: seq<Bytes>, start: Bytes, report: RedriveReport)
    requires |before| < |stores| && Amid(stores, before, from, false, sofar) && IsPage(stores[|before|], from, keys)
    requires keys != [] ==> start == keys[|keys| - 1] + ['\0']
    requires report.settled + report.failed == sofar.settled + sofar.failed + |keys|
    ensures Amid(stores, before + [keys], start, keys == [], report)
  {
    ReadMore(stores, before, keys);
  }

  lemma {:induction false} SameKeys(pages: seq<seq<Bytes>>, keys: seq<Bytes>, i: nat)
    requires i <= |pages|
    ensures KeysOf(pages + [keys], i) == KeysOf(pages, i)
  {
    if i > 0 { SameKeys(pages, keys, i - 1); }
  }

  // ----- What settling a page does -----

  // Settling the first `n` keys of a page of `m` leaves `now`: only records among
  // them are gone, each registered.
  ghost predicate Takes(m: Records, keys: seq<Bytes>, n: nat, now: Records, provider: map<Bytes, Bytes>)
  {
    && n <= |keys|
    && (forall k :: k in now ==> k in m && now[k] == m[k])
    && (forall k :: k in m && k !in now ==> k in keys[..n] && k in provider)
  }

  // Objects keep their owners; new ones belong to the creators their records name.
  ghost predicate Provides(m: Records, keys: seq<Bytes>, n: nat, provider: map<Bytes, Bytes>, provider': map<Bytes, Bytes>)
  {
    && n <= |keys| && Grew(provider, provider')
    && (forall k :: k in provider' && k !in provider ==> k in keys[..n] && k in m && provider'[k] == m[k].creator)
  }

  // Successes and failures are counted, a failure for each call that went wrong.
  ghost predicate Counts(faults: nat -> Fault, was: nat, now: nat, begun: nat, calls: nat, sofar: RedriveReport,
                         report: RedriveReport)
  {
    && begun <= calls && report.failed == sofar.failed + Faulted(faults, begun, calls)
    && report.settled + now == sofar.settled + was
  }

  ghost predicate SettlesSome(faults: nat -> Fault, m: Records, keys: seq<Bytes>, n: nat, now: Records, begun: Remote,
                              remote: Remote, sofar: RedriveReport, report: RedriveReport)
  {
    && Takes(m, keys, n, now, remote.provider) && Provides(m, keys, n, begun.provider, remote.provider)
    && Counts(faults, |m|, |now|, begun.calls, remote.calls, sofar, report)
  }

  ghost predicate SettlesPage(faults: nat -> Fault, m: Records, keys: seq<Bytes>, now: Records, begun: Remote,
                              remote: Remote, sofar: RedriveReport, report: RedriveReport)
  {
    SettlesSome(faults, m, keys, |keys|, now, begun, remote, sofar, report)
  }

  lemma {:induction false} SettleNext(faults: nat -> Fault, m: Records, keys: seq<Bytes>, n: nat, now: Records, now': Records,
                                      begun: Remote, remote: Remote, tried: Attempt, sofar: RedriveReport,
                                      report: RedriveReport)
    requires SettlesSome(faults, m, keys, n, now, begun, remote, sofar, report)
    requires Increasing(keys) && n < |keys| && keys[n] in m
    requires Tries(faults, remote, keys[n], m[keys[n]].creator, tried)
    requires now' == if tried.ok then now - {keys[n]} else now
    ensures SettlesSome(faults, m, keys, n + 1, now', begun, tried.after, sofar, Count(report, tried.ok))
  {
    StillThere(m, keys, n, now);
    TakeNextKey(m, keys, n, now, now', remote.provider, tried);
    ProvideNext(m, keys, n, begun.provider, remote.provider, tried.after.provider);
    FaultedAdds(faults, begun.calls, remote.calls, tried.after.calls);
  }

  lemma TakeNextKey(m: Records, keys: seq<Bytes>, n: nat, now: Records, now': Records, provider: map<Bytes, Bytes>,
                    tried: Attempt)
    requires Takes(m, keys, n, now, provider) && n < |keys| && keys[n] in m
    requires Grew(provider, tried.after.provider) && (tried.ok ==> keys[n] in tried.after.provider)
    requires now' == if tried.ok then now - {keys[n]} else now
    ensures Takes(m, keys, n + 1, now', tried.after.provider)
  {
    assert keys[..n + 1] == keys[..n] + [keys[n]];
  }

  lemma ProvideNext(m: Records, keys: seq<Bytes>, n: nat, begun: map<Bytes, Bytes>, provider: map<Bytes, Bytes>,
                    provider': map<Bytes, Bytes>)
    requires Provides(m, keys, n, begun, provider) && n < |keys| && keys[n] in m && Grew(provider, provider')
    requires forall k :: k in provider' && k !in provider ==> k == keys[n] && provider'[k] == m[keys[n]].creator
    ensures Provides(m, keys, n + 1, begun, provider')
  {
    assert keys[..n + 1] == keys[..n] + [keys[n]];
  }

  lemma StillThere(m: Records, keys: seq<Bytes>, n: nat, now: Records)
    requires Increasing(keys) && n < |keys| && keys[n] in m
    requires forall k :: k in m && k !in now ==> k in keys[..n]
    ensures keys[n] in now && |now - {keys[n]}| == |now| - 1
  {
    forall i | 0 <= i < n ensures keys[i] != keys[n] {
      LessIrreflexive(keys[n]);
    }
    assert keys[n] in now;
    assert (now - {keys[n]}).Keys == now.Keys - {keys[n]};
  }

  // What settling took from each store, page by page.
  function Taken(stores: seq<Records>, left: seq<Records>, n: nat): int
    requires n <= |stores| && n <= |left|
  {
    if n == 0 then 0 else Taken(stores, left, n - 1) + |stores[n - 1]| - |left[n - 1]|
  }

  // Page `i` took from its store only keys of its own, all registered now.
  ghost predicate PageSettled(stores: seq<Records>, pages: seq<seq<Bytes>>, left: seq<Records>, i: nat,
                              provider: map<Bytes, Bytes>)
  {
    && i < |stores| && i < |pages| && i < |left|
    && (forall k :: k in left[i] ==> k in stores[i] && left[i][k] == stores[i][k])
    && (forall k :: k in stores[i] && k !in left[i] ==> k in pages[i] && k in provider)
  }

  // Some page attempted a record of `k` that names `who`.
  ghost predicate Named(stores: seq<Records>, pages: seq<seq<Bytes>>, k: Bytes, who: Bytes)
  {
    exists i :: 0 <= i < |pages| && i < |stores| && k in pages[i] && k in stores[i] && stores[i][k].creator == who
  }

  ghost predicate AllSettled(stores: seq<Records>, pages: seq<seq<Bytes>>, left: seq<Records>, provider: map<Bytes, Bytes>)
  {
    forall i :: 0 <= i < |pages| ==> PageSettled(stores, pages, left, i, provider)
  }

  ghost predicate AllNamed(stores: seq<Records>, pages: seq<seq<Bytes>>, begun: map<Bytes, Bytes>, provider: map<Bytes, Bytes>)
  {
    && Grew(begun, provider)
    && forall k :: k in provider && k !in begun ==> Named(stores, pages, k, provider[k])
  }

  ghost predicate Settles(faults: nat -> Fault, stores: seq<Records>, pages: seq<seq<Bytes>>, left: seq<Records>,
                          begun: Remote, remote: Remote, report: RedriveReport)
  {
    && |left| == |pages| <= |stores|
    && AllSettled(stores, pages, left, remote.provider) && AllNamed(stores, pages, begun.provider, remote.provider)
    && begun.calls <= remote.calls && report.failed == Faulted(faults, begun.calls, remote.calls)
    && report.settled == Taken(stores, left, |left|)
  }

  lemma SettlesNone(faults: nat -> Fault, stores: seq<Records>, begun: Remote)
    ensures Settles(faults, stores, [], [], begun, begun, RedriveReport(0, 0))
  {
  }

  lemma {:induction false} TakenMore(stores: seq<Records>, left: seq<Records>, next: Records, n: nat)
    requires n <= |left| && n <= |stores|
    ensures Taken(stores, left + [next], n) == Taken(stores, left, n)
  {
    if n > 0 { TakenMore(stores, left, next, n - 1); }
  }

  lemma {:induction false} SettlesMore(faults: nat -> Fault, stores: seq<Records>, before: seq<seq<Bytes>>, left: seq<Records>,
                                       begun: Remote, at: Remote, sofar: RedriveReport, keys: seq<Bytes>, now: Records,
                                       remote: Remote, report: RedriveReport)
    requires Settles(faults, stores, before, left, begun, at, sofar) && |before| < |stores|
    requires SettlesPage(faults, stores[|before|], keys, now, at, remote, sofar, report)
    ensures Settles(faults, stores, before + [keys], left + [now], begun, remote, report)
  {
    assert keys[..|keys|] == keys;
    FaultedAdds(faults, begun.calls, at.calls, remote.calls);
    TakenMore(stores, left, now, |before|);
    AllSettledMore(stores, before, left, keys, now, at.provider, remote.provider);
    AllNamedMore(stores, before, keys, begun.provider, at.provider, remote.provider);
  }

  lemma {:induction false} AllSettledMore(stores: seq<Records>, before: seq<seq<Bytes>>, left: seq<Records>, keys: seq<Bytes>,
                                          now: Records, provider: map<Bytes, Bytes>, provider': map<Bytes, Bytes>)
    requires |left| == |before| < |stores| && AllSettled(stores, before, left, provider) && Grew(provider, provider')
    requires Takes(stores[|before|], keys, |keys|, now, provider') && keys[..|keys|] == keys
    ensures AllSettled(stores, before + [keys], left + [now], provider')
  {
    forall i | 0 <= i < |before| + 1 ensures PageSettled(stores, before + [keys], left + [now], i, provider') {
      if i < |before| {
        PageStaysSettled(stores, before, keys, left, now, i, provider, provider');
      }
    }
  }

  lemma {:induction false} AllNamedMore(stores: seq<Records>, before: seq<seq<Bytes>>, keys: seq<Bytes>, begun: map<Bytes, Bytes>,
                                        provider: map<Bytes, Bytes>, provider': map<Bytes, Bytes>)
    requires |before| < |stores| && AllNamed(stores, before, begun, provider)
    requires Provides(stores[|before|], keys, |keys|, provider, provider') && keys[..|keys|] == keys
    ensures AllNamed(stores, before + [keys], begun, provider')
  {
    var pages, n := before + [keys], |before|;
    forall k | k in provider' && k !in begun ensures Named(stores, pages, k, provider'[k]) {
      if k in provider {
        NamedMore(stores, before, keys, k, provider[k]);
      } else {
        assert k in pages[n] && k in stores[n];
      }
    }
  }

  lemma PageStaysSettled(stores: seq<Records>, before: seq<seq<Bytes>>, keys: seq<Bytes>, left: seq<Records>, now: Records,
                         i: nat, provider: map<Bytes, Bytes>, provider': map<Bytes, Bytes>)
    requires PageSettled(stores, before, left, i, provider) && Grew(provider, provider')
    ensures PageSettled(stores, before + [keys], left + [now], i, provider')
  {
  }

  lemma NamedMore(stores: seq<Records>, before: seq<seq<Bytes>>, keys: seq<Bytes>, k: Bytes, who: Bytes)
    requires Named(stores, before, k, who)
    ensures Named(stores, before + [keys], k, who)
  {
    var i :| 0 <= i < |before| && i < |stores| && k in before[i] && k in stores[i] && stores[i][k].creator == who;
    assert (before + [keys])[i] == before[i];
  }

  // The keys of the first `i` pages.
  function KeysOf(pages: seq<seq<Bytes>>, i: nat): seq<Bytes>
    requires i <= |pages|
  {
    if i == 0 then [] else KeysOf(pages, i - 1) + pages[i - 1]
  }

  ghost predicate AllBefore(keys: seq<Bytes>, bound: Bytes)
  {
    forall k :: k in keys ==> Less(k, bound)
  }

  lemma {:induction false} PageOf(stores: seq<Records>, pages: seq<seq<Bytes>>, i: nat)
    requires ReadsPages(stores, pages) && i < |pages|
    ensures IsPage(stores[i], Start(pages, i), pages[i])
    ensures i + 1 < |pages| ==> pages[i] != [] && Start(pages, i + 1) == pages[i][|pages[i]| - 1] + ['\0']
  {
    assert PageAt(stores, pages, i);
  }

  // With concurrent writers no key is attempted twice: over all pages the
  // attempted keys strictly increase.
  lemma {:induction false} NoKeyTwice(stores: seq<Records>, pages: seq<seq<Bytes>>, i: nat)
    requires ReadsPages(stores, pages) && i <= |pages|
    ensures Increasing(KeysOf(pages, i))
    ensures i < |pages| ==> AllBefore(KeysOf(pages, i), Start(pages, i))
  {
    if i > 0 {
      NoKeyTwice(stores, pages, i - 1);
      PageOf(stores, pages, i - 1);
      PageAfter(stores[i - 1], KeysOf(pages, i - 1), Start(pages, i - 1), pages[i - 1]);
    }
  }

  lemma PageAfter(m: Records, before: seq<Bytes>, start: Bytes, keys: seq<Bytes>)
    requires Increasing(before) && IsPage(m, start, keys) && AllBefore(before, start)
    ensures Increasing(before + keys)
    ensures keys != [] ==> AllBefore(before + keys, keys[|keys| - 1] + ['\0'])
  {
    forall x, y | 0 <= x < |before| && 0 <= y < |keys| ensures Less(before[x], keys[y]) {
      assert before[x] in before;
      LessThenAtMost(before[x], start, keys[y]);
    }
    assert Increasing(before + keys);
    if keys != [] {
      var last := keys[|keys| - 1];
      forall k | k in before + keys ensures Less(k, last + ['\0']) {
        SuccessorIsTight(last, k);
        UpToLast(before + keys, k);
      }
    }
  }

  // And every record present for the whole pass is attempted.
  lemma PresentThroughoutIsAttempted(stores: seq<Records>, pages: seq<seq<Bytes>>, key: Bytes)
    requires IsPass(stores, pages) && PresentThroughout(stores, pages, key)
    ensures AttemptedIn(pages, key)
  {
    PrefixAtMost(PENDING_PREFIX, key);
    ReachedFrom(stores, pages, key, 0);
  }

  ghost predicate AttemptedIn(pages: seq<seq<Bytes>>, key: Bytes)
  {
    exists i :: 0 <= i < |pages| && key in pages[i]
  }

  ghost predicate MissesNone(stores: seq<Records>, pages: seq<seq<Bytes>>)
  {
    forall k :: PresentThroughout(stores, pages, k) ==> AttemptedIn(pages, k)
  }

  lemma {:induction false} PassMissesNone(stores: seq<Records>, pages: seq<seq<Bytes>>)
    requires IsPass(stores, pages)
    ensures MissesNone(stores, pages)
  {
    forall k | PresentThroughout(stores, pages, k) ensures AttemptedIn(pages, k) {
      PresentThroughoutIsAttempted(stores, pages, k);
    }
  }

  lemma {:induction false} ReachedFrom(stores: seq<Records>, pages: seq<seq<Bytes>>, key: Bytes, i: nat)
    requires IsPass(stores, pages) && i < |pages|
    requires forall n :: 0 <= n < |pages| ==> key in stores[n]
    requires AtMost(Start(pages, i), key)
    ensures AttemptedIn(pages, key)
    decreases |pages| - i
  {
    ReachedOrPassed(stores, pages, key, i);
    if key !in pages[i] {
      ReachedFrom(stores, pages, key, i + 1);
    }
  }

  lemma ReachedOrPassed(stores: seq<Records>, pages: seq<seq<Bytes>>, key: Bytes, i: nat)
    requires IsPass(stores, pages) && i < |pages| && key in stores[i] && AtMost(Start(pages, i), key)
    ensures key in pages[i] || (i + 1 < |pages| && AtMost(Start(pages, i + 1), key))
  {
    assert PageAt(stores, pages, i);
    HereOrLater(stores[i], Start(pages, i), pages[i], key);
  }

  lemma HereOrLater(m: Records, start: Bytes, keys: seq<Bytes>, key: Bytes)
    requires IsPage(m, start, keys) && key in m && AtMost(start, key)
    ensures keys != [] && (key in keys || AtMost(keys[|keys| - 1] + ['\0'], key))
  {
    if keys != [] {
      SuccessorIsTight(keys[|keys| - 1], key);
    }
  }
}
