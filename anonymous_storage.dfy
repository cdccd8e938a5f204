/**
 * The anonymous recording cache: the list of recordings a visitor without an account sees,
 * mirrored in a persisted object store keyed by `id`. At most ten unexpired recordings are
 * accepted and each is kept for thirty days. Clock readings, the fresh id, whether the
 * payload could be read and which store request fails (if any) are parameters.
 */
module AnonymousStorage {
  import opened Wrappers
  import opened Text

  const MaxRecordings: nat := 10
  const RetentionDays: nat := 30

  /** The retention period in milliseconds, counting each day as 24 hours. */
  const Retention: int := RetentionDays * 24 * 60 * 60 * 1000

  /**
   * A recorded payload: its bytes. Its MIME type is not kept, because the data-URL round trip
   * may rewrite it.
   */
  datatype Blob = Blob(bytes: seq<bv8>)

  /**
   * A stored recording. Instants are milliseconds since the epoch. `audioData` is the payload
   * (kept as a data URL, whose encoding is not modelled); `None` stands for a missing field.
   */
  datatype Recording = Recording(
    id: string,
    audioData: Option<Blob>,
    name: string,
    createdAt: int,
    expiresAt: Option<int>,
    size: nat)

  /** Fields a caller passes to replace the defaults of a new recording; `None` keeps one. */
  datatype Metadata = Metadata(
    id: Option<string>,
    audioData: Option<Option<Blob>>,
    name: Option<string>,
    createdAt: Option<int>,
    expiresAt: Option<Option<int>>,
    size: Option<nat>)

  const NoMetadata := Metadata(None, None, None, None, None, None)

  /** The errors the hook's operations throw. */
  datatype Failure = NotInitialized | LimitReached | AddFailed | DeleteFailed | ClearFailed | NotFound | BlobFailed

  function Message(f: Failure): string {
    match f
    case NotInitialized => "Storage not initialized"
    case LimitReached => "Recording limit reached (" + NatToString(MaxRecordings) + " recordings maximum)"
    case AddFailed => "Failed to save recording"
    case DeleteFailed => "Failed to delete recording"
    case ClearFailed => "Failed to clear recordings"
    case NotFound => "Recording not found"
    case BlobFailed => "Failed to load recording data"
  }

  /** The limit message spells out the limit of ten. */
  lemma LimitMessage()
    ensures Message(LimitReached) == "Recording limit reached (10 recordings maximum)"
  {
    assert NatToString(10) == NatToString(1) + [DigitChar(0)] == "10";
  }

  // The values `storageError` takes.
  const SaveError := "Failed to save recordings"
  const LoadError := "Failed to load recordings"
  const InitError := "Failed to initialize storage"

  // ---------------------------------------------------------------------------
  // Filtering

  /** `s.filter(keep)`: the records `keep` accepts, in their order. */
  function Filter(s: seq<Recording>, keep: Recording -> bool): (r: seq<Recording>)
    ensures |r| <= |s|
  {
    if s == [] then [] else (if keep(s[0]) then [s[0]] else []) + Filter(s[1..], keep)
  }

  /** A record survives the filter exactly when it is in the list and accepted. */
  lemma {:induction false} FilterMembers(s: seq<Recording>, keep: Recording -> bool)
    ensures forall r :: r in Filter(s, keep) <==> r in s && keep(r)
  {
    if s != [] {
      FilterMembers(s[1..], keep);
      assert s == [s[0]] + s[1..];
    }
  }

  /** Nothing is dropped exactly when every record is accepted, and then the list is unchanged. */
  lemma {:induction false} FilterAll(s: seq<Recording>, keep: Recording -> bool)
    ensures |Filter(s, keep)| == |s| <==> forall i :: 0 <= i < |s| ==> keep(s[i])
    ensures (forall i :: 0 <= i < |s| ==> keep(s[i])) ==> Filter(s, keep) == s
  {
    if s != [] {
      FilterAll(s[1..], keep);
      assert s == [s[0]] + s[1..];
      if forall i :: 0 <= i < |s| ==> keep(s[i]) {
        assert forall i :: 0 <= i < |s[1..]| ==> keep(s[1..][i]) by {
          forall i | 0 <= i < |s[1..]| ensures keep(s[1..][i]) {
            assert s[1..][i] == s[i + 1];
          }
        }
      } else if keep(s[0]) {
        var i :| 0 <= i < |s| && !keep(s[i]);
        assert i > 0 && s[1..][i - 1] == s[i];
      }
    }
  }

  /** A filter keeps every copy of an accepted record and no copy of a rejected one. */
  lemma {:induction false} FilterMultiset(s: seq<Recording>, keep: Recording -> bool)
    ensures forall x :: multiset(Filter(s, keep))[x] == if keep(x) then multiset(s)[x] else 0
  {
    if s != [] {
      FilterMultiset(s[1..], keep);
      assert s == [s[0]] + s[1..];
    }
  }

  // ---------------------------------------------------------------------------
  // Expiry

  /**
   * The expiry test: a record is kept only when it has an `expiresAt` strictly after now, so a
   * record is dropped at its exact expiry instant. (`new Date(undefined)` compares false,
   * so a missing `expiresAt` drops the record on both paths.)
   */
  predicate IsLive(r: Recording, now: int) {
    r.expiresAt.Some? && r.expiresAt.value > now
  }

  function Live(s: seq<Recording>, now: int): (r: seq<Recording>)
    ensures |r| <= |s|
  {
    Filter(s, r => IsLive(r, now))
  }

  /** The unexpired records are exactly the records with an expiry after now. */
  lemma LiveMembers(s: seq<Recording>, now: int)
    ensures forall r :: r in Live(s, now) <==> r in s && IsLive(r, now)
    ensures |Live(s, now)| <= |s|
    ensures |Live(s, now)| == |s| <==> forall i :: 0 <= i < |s| ==> IsLive(s[i], now)
  {
    FilterMembers(s, r => IsLive(r, now));
    FilterAll(s, r => IsLive(r, now));
  }

  // ---------------------------------------------------------------------------
  // Ordering: newest first

  predicate SortedNewestFirst(s: seq<Recording>) {
    forall i, j :: 0 <= i < j < |s| ==> s[i].createdAt >= s[j].createdAt
  }

  /** Places `x` after every record at least as new, as a stable sort does. */
  function Insert(t: seq<Recording>, x: Recording): (r: seq<Recording>)
    ensures |r| == |t| + 1
  {
    if t == [] then [x]
    else if t[0].createdAt >= x.createdAt then [t[0]] + Insert(t[1..], x)
    else [x] + t
  }

  /**
   * `sort((a, b) => new Date(b.createdAt) - new Date(a.createdAt))`: a stable sort on
   * `createdAt`, newest first, written as insertion sort.
   */
  function SortNewestFirst(s: seq<Recording>): (r: seq<Recording>)
    ensures |r| == |s|
  {
    if s == [] then [] else Insert(SortNewestFirst(s[..|s| - 1]), s[|s| - 1])
  }

  lemma {:induction false} InsertMembers(t: seq<Recording>, x: Recording)
    ensures multiset(Insert(t, x)) == multiset(t) + multiset{x}
  {
    if t != [] && t[0].createdAt >= x.createdAt {
      InsertMembers(t[1..], x);
      assert t == [t[0]] + t[1..];
    }
  }

  lemma {:induction false} InsertSorted(t: seq<Recording>, x: Recording)
    requires SortedNewestFirst(t)
    ensures SortedNewestFirst(Insert(t, x))
  {
    if t != [] {
      if t[0].createdAt >= x.createdAt {
        var rest := Insert(t[1..], x);
        InsertSorted(t[1..], x);
        InsertMembers(t[1..], x);
        forall y | y in rest
          ensures t[0].createdAt >= y.createdAt
        {
          assert y in multiset(rest);
          if y != x {
            var m :| 0 <= m < |t[1..]| && t[1..][m] == y;
            assert t[m + 1] == y;
          }
        }
        ConsSorted(t[0], rest);
      } else {
        forall y | y in t
          ensures x.createdAt >= y.createdAt
        {
          var i :| 0 <= i < |t| && t[i] == y;
        }
        ConsSorted(x, t);
      }
    }
  }

  /** A record no newer than every record of `t` goes at the end. */
  lemma {:induction false} InsertAtEnd(t: seq<Recording>, x: Recording)
    requires forall i :: 0 <= i < |t| ==> t[i].createdAt >= x.createdAt
    ensures Insert(t, x) == t + [x]
  {
    if t != [] {
      InsertAtEnd(t[1..], x);
      assert t == [t[0]] + t[1..];
    }
  }

  /** The sort keeps every record, with its multiplicity. */
  lemma {:induction false} SortPermutes(s: seq<Recording>)
    ensures multiset(SortNewestFirst(s)) == multiset(s)
  {
    if s != [] {
      var p, x := s[..|s| - 1], s[|s| - 1];
      SortPermutes(p);
      InsertMembers(SortNewestFirst(p), x);
      assert s == p + [x];
    }
  }

  lemma {:induction false} SortOrders(s: seq<Recording>)
    ensures SortedNewestFirst(SortNewestFirst(s))
  {
    if s != [] {
      var p := s[..|s| - 1];
      SortOrders(p);
      InsertSorted(SortNewestFirst(p), s[|s| - 1]);
    }
  }

  /** The sort orders newest first and keeps every record, with its multiplicity. */
  lemma SortSpec(s: seq<Recording>)
    ensures SortedNewestFirst(SortNewestFirst(s))
    ensures multiset(SortNewestFirst(s)) == multiset(s)
    ensures |SortNewestFirst(s)| == |s|
  {
    SortOrders(s);
    SortPermutes(s);
    assert |multiset(SortNewestFirst(s))| == |SortNewestFirst(s)|;
  }

  /** A list already newest first is left as it is. */
  lemma {:induction false} SortSorted(s: seq<Recording>)
    requires SortedNewestFirst(s)
    ensures SortNewestFirst(s) == s
  {
    if s != [] {
      var p, x := s[..|s| - 1], s[|s| - 1];
      assert SortedNewestFirst(p);
      SortSorted(p);
      InsertAtEnd(p, x);
      assert s == p + [x];
    }
  }

  // ---------------------------------------------------------------------------
  // Keys

  /** The store's key path is `id`: no two records share one. */
  predicate UniqueIds(s: seq<Recording>) {
    forall i, j :: 0 <= i < j < |s| ==> s[i].id != s[j].id
  }

  predicate HasId(s: seq<Recording>, id: string) {
    exists i :: 0 <= i < |s| && s[i].id == id
  }

  /** A record put in front of a list keeps keys unique when its key is not in the list. */
  lemma ConsUnique(a: Recording, r: seq<Recording>)
    requires UniqueIds(r) && forall y :: y in r ==> y.id != a.id
    ensures UniqueIds([a] + r)
  {
    var ar := [a] + r;
    forall i, j | 0 <= i < j < |ar|
      ensures ar[i].id != ar[j].id
    {
      assert ar[j] == r[j - 1];
      if i > 0 {
        assert ar[i] == r[i - 1];
      }
    }
  }

  /** A record put in front of a list keeps it newest first when it is at least as new. */
  lemma ConsSorted(a: Recording, r: seq<Recording>)
    requires SortedNewestFirst(r) && forall y :: y in r ==> a.createdAt >= y.createdAt
    ensures SortedNewestFirst([a] + r)
  {
    var ar := [a] + r;
    forall i, j | 0 <= i < j < |ar|
      ensures ar[i].createdAt >= ar[j].createdAt
    {
      assert ar[j] == r[j - 1];
      if i > 0 {
        assert ar[i] == r[i - 1];
      }
    }
  }

  lemma {:induction false} FilterUnique(s: seq<Recording>, keep: Recording -> bool)
    requires UniqueIds(s)
    ensures UniqueIds(Filter(s, keep))
  {
    if s != [] {
      var rest := Filter(s[1..], keep);
      FilterUnique(s[1..], keep);
      FilterMembers(s[1..], keep);
      if keep(s[0]) {
        forall y | y in rest
          ensures y.id != s[0].id
        {
          var m :| 0 <= m < |s[1..]| && s[1..][m] == y;
          assert s[m + 1] == y;
        }
        ConsUnique(s[0], rest);
      }
    }
  }

  lemma {:induction false} FilterSorted(s: seq<Recording>, keep: Recording -> bool)
    requires SortedNewestFirst(s)
    ensures SortedNewestFirst(Filter(s, keep))
  {
    if s != [] {
      var rest := Filter(s[1..], keep);
      FilterSorted(s[1..], keep);
      FilterMembers(s[1..], keep);
      if keep(s[0]) {
        forall y | y in rest
          ensures s[0].createdAt >= y.createdAt
        {
          var m :| 0 <= m < |s[1..]| && s[1..][m] == y;
          assert s[m + 1] == y;
        }
        ConsSorted(s[0], rest);
      }
    }
  }

  lemma {:induction false} InsertUnique(t: seq<Recording>, x: Recording)
    requires UniqueIds(t) && !HasId(t, x.id)
    ensures UniqueIds(Insert(t, x))
  {
    if t != [] {
      if t[0].createdAt >= x.createdAt {
        var rest := Insert(t[1..], x);
        InsertUnique(t[1..], x);
        InsertMembers(t[1..], x);
        forall y | y in rest
          ensures y.id != t[0].id
        {
          assert y in multiset(rest);
          if y != x {
            var m :| 0 <= m < |t[1..]| && t[1..][m] == y;
            assert t[m + 1] == y;
          }
        }
        ConsUnique(t[0], rest);
      } else {
        forall y | y in t
          ensures y.id != x.id
        {
          var i :| 0 <= i < |t| && t[i] == y;
        }
        ConsUnique(x, t);
      }
    }
  }

  /** Sorting cannot create a repeated key. */
  lemma {:induction false} SortUnique(s: seq<Recording>)
    requires UniqueIds(s)
    ensures UniqueIds(SortNewestFirst(s))
  {
    if s != [] {
      var p, x := s[..|s| - 1], s[|s| - 1];
      assert UniqueIds(p);
      SortUnique(p);
      SortSpec(p);
      forall m | 0 <= m < |SortNewestFirst(p)|
        ensures SortNewestFirst(p)[m].id != x.id
      {
        assert SortNewestFirst(p)[m] in multiset(p);
        var k :| 0 <= k < |p| && p[k] == SortNewestFirst(p)[m];
        assert s[k] == p[k];
      }
      InsertUnique(SortNewestFirst(p), x);
    }
  }

  /** Appending a record whose key is new keeps the keys unique. */
  lemma AppendUnique(s: seq<Recording>, x: Recording)
    requires UniqueIds(s) && !HasId(s, x.id)
    ensures UniqueIds(s + [x])
  {
    var r := s + [x];
    forall i, j | 0 <= i < j < |r|
      ensures r[i].id != r[j].id
    {
      assert r[i] == s[i];
      if j < |s| {
        assert r[j] == s[j];
      }
    }
  }

  /** `recordings.find(r => r.id === id)`: the first record with that id. */
  function Lookup(s: seq<Recording>, id: string): (r: Option<Recording>)
    ensures r.Some? ==> r.value in s && r.value.id == id
  {
    if s == [] then None
    else if s[0].id == id then Some(s[0])
    else Lookup(s[1..], id)
  }

  /** The lookup finds a record exactly when one has the id, and then the first one. */
  lemma {:induction false} LookupSpec(s: seq<Recording>, id: string)
    ensures Lookup(s, id).Some? <==> HasId(s, id)
    ensures Lookup(s, id).Some? ==>
              exists i :: 0 <= i < |s| && Lookup(s, id).value == s[i] && s[i].id == id &&
                forall k :: 0 <= k < i ==> s[k].id != id
  {
    if s != [] && s[0].id != id {
      LookupSpec(s[1..], id);
      if HasId(s, id) {
        var m :| 0 <= m < |s| && s[m].id == id;
        assert s[1..][m - 1] == s[m];
      }
      if Lookup(s, id).Some? {
        var i :| 0 <= i < |s[1..]| && Lookup(s[1..], id).value == s[1..][i] && s[1..][i].id == id &&
                 forall k :: 0 <= k < i ==> s[1..][k].id != id;
        assert s[1..][i] == s[i + 1];
        forall k | 0 <= k < i + 1
          ensures s[k].id != id
        {
          if k > 0 {
            assert s[k] == s[1..][k - 1];
          }
        }
      }
    }
  }

  // ---------------------------------------------------------------------------
  // What the operations compute

  /** `deleteRecording`'s list: every record whose id differs, in order. */
  function WithoutId(s: seq<Recording>, id: string): (r: seq<Recording>)
    ensures |r| <= |s|
  {
    Filter(s, (r: Recording) => r.id != id)
  }

  /**
   * Deleting keeps exactly the records with another id; it keeps keys unique and order newest
   * first, and it is the identity when no record has the id.
   */
  lemma WithoutIdSpec(s: seq<Recording>, id: string)
    ensures forall r :: r in WithoutId(s, id) <==> r in s && r.id != id
    ensures !HasId(WithoutId(s, id), id)
    ensures !HasId(s, id) ==> WithoutId(s, id) == s
    ensures UniqueIds(s) ==> UniqueIds(WithoutId(s, id))
    ensures SortedNewestFirst(s) ==> SortedNewestFirst(WithoutId(s, id))
  {
    var keep := (r: Recording) => r.id != id;
    FilterMembers(s, keep);
    FilterAll(s, keep);
    if UniqueIds(s) {
      FilterUnique(s, keep);
    }
    if SortedNewestFirst(s) {
      FilterSorted(s, keep);
    }
  }

  /** Deleting twice is deleting once. */
  lemma WithoutIdIdempotent(s: seq<Recording>, id: string)
    ensures WithoutId(WithoutId(s, id), id) == WithoutId(s, id)
  {
    WithoutIdSpec(s, id);
    WithoutIdSpec(WithoutId(s, id), id);
  }

  /** `loadRecordings`'s list: the unexpired stored records, newest first. */
  function Loaded(store: seq<Recording>, now: int): (r: seq<Recording>)
    ensures |r| <= |store|
  {
    SortNewestFirst(Live(store, now))
  }

  /**
   * The loaded list holds every unexpired stored record and nothing else, newest first, with
   * unique keys when the store's are; it is as long as the store exactly when nothing expired.
   */
  lemma LoadedSpec(store: seq<Recording>, now: int)
    ensures SortedNewestFirst(Loaded(store, now))
    ensures forall r :: r in Loaded(store, now) <==> r in store && IsLive(r, now)
    ensures |Loaded(store, now)| == |Live(store, now)| <= |store|
    ensures |Loaded(store, now)| == |store| <==> forall i :: 0 <= i < |store| ==> IsLive(store[i], now)
    ensures UniqueIds(store) ==> UniqueIds(Loaded(store, now))
  {
    LiveMembers(store, now);
    SortSpec(Live(store, now));
    assert forall r :: r in Loaded(store, now) <==> r in multiset(Live(store, now));
    if UniqueIds(store) {
      FilterUnique(store, r => IsLive(r, now));
      SortUnique(Live(store, now));
    }
  }

  /** `??`-style override: the caller's field when present, else the default. */
  function Override<T>(given: Option<T>, default: T): T {
    if given.Some? then given.value else default
  }

  /**
   * `addRecording`'s new record: a fresh id, the payload, `Recording <k+1>` for `k` unexpired
   * recordings, created at the first clock reading, expiring thirty days after the second,
   * sized by the payload; the caller's metadata is spread last and replaces any of these.
   */
  function NewRecording(freshId: string, blob: Blob, metadata: Metadata, k: nat, now: int, readDone: int): Recording {
    Recording(
      Override(metadata.id, freshId),
      Override(metadata.audioData, Some(blob)),
      Override(metadata.name, "Recording " + NatToString(k + 1)),
      Override(metadata.createdAt, now),
      Override(metadata.expiresAt, Some(readDone + Retention)),
      Override(metadata.size, |blob.bytes|))
  }

  /**
   * Without metadata the new record is named after the count it completes and is unexpired from
   * its creation until thirty days after the payload was read, and expired from then on.
   */
  lemma NewRecordingDefaults(freshId: string, blob: Blob, k: nat, now: int, readDone: int, t: int)
    requires now <= readDone
    ensures var r := NewRecording(freshId, blob, NoMetadata, k, now, readDone);
            r.id == freshId && r.audioData == Some(blob) && r.size == |blob.bytes| &&
            r.name == "Recording " + NatToString(k + 1) && r.createdAt == now &&
            (now <= t < readDone + Retention ==> IsLive(r, t)) &&
            (t >= readDone + Retention ==> !IsLive(r, t))
  {
  }

  /** The list an accepted add saves never exceeds the limit. */
  lemma AddedBounded(s: seq<Recording>, x: Recording, now: int)
    requires |Live(s, now)| < MaxRecordings
    ensures |SortNewestFirst(Live(s, now) + [x])| <= MaxRecordings
    ensures SortedNewestFirst(SortNewestFirst(Live(s, now) + [x]))
    ensures x in SortNewestFirst(Live(s, now) + [x])
  {
    SortSpec(Live(s, now) + [x]);
    assert x in multiset(Live(s, now) + [x]);
  }

  /** The list an add saves has unique keys when the new record's id is not already live. */
  lemma AddedUnique(s: seq<Recording>, x: Recording, now: int)
    requires UniqueIds(s) && !HasId(Live(s, now), x.id)
    ensures UniqueIds(SortNewestFirst(Live(s, now) + [x]))
  {
    FilterUnique(s, r => IsLive(r, now));
    AppendUnique(Live(s, now), x);
    SortUnique(Live(s, now) + [x]);
  }

  /** Dropping one record of a list with unique keys keeps them unique, and drops its key. */
  lemma RemoveUnique(a: seq<Recording>, k: nat)
    requires UniqueIds(a) && k < |a|
    ensures UniqueIds(a[..k] + a[k + 1..])
    ensures forall y :: y in a[..k] + a[k + 1..] ==> y.id != a[k].id
  {
    var r := a[..k] + a[k + 1..];
    assert forall i :: 0 <= i < |r| ==> r[i] == a[if i < k then i else i + 1];
  }

  /** Dropping the record at `k` drops one copy of it from the multiset. */
  lemma RemoveMultiset(a: seq<Recording>, k: nat)
    requires k < |a|
    ensures multiset(a[..k] + a[k + 1..]) == multiset(a) - multiset{a[k]}
  {
    assert a == a[..k] + [a[k]] + a[k + 1..];
  }

  /** Reordering a list cannot create a repeated key. */
  lemma {:induction false} PermutationUnique(a: seq<Recording>, b: seq<Recording>)
    requires multiset(a) == multiset(b) && UniqueIds(a)
    ensures UniqueIds(b)
  {
    if b != [] {
      var x, rest := b[0], b[1..];
      assert b == [x] + rest;
      assert x in multiset(a);
      var k :| 0 <= k < |a| && a[k] == x;
      var a' := a[..k] + a[k + 1..];
      RemoveMultiset(a, k);
      assert multiset(rest) == multiset(b) - multiset{x};
      RemoveUnique(a, k);
      PermutationUnique(a', rest);
      forall y | y in rest
        ensures y.id != x.id
      {
        assert y in multiset(rest);
      }
      ConsUnique(x, rest);
    }
  }

  /**
   * Loading is insensitive to the order the store is read in, up to ties: from any reordering
   * the same records are kept, and equally many.
   */
  lemma LoadedAnyOrder(store: seq<Recording>, read: seq<Recording>, now: int)
    requires multiset(read) == multiset(store)
    ensures forall r :: r in Loaded(read, now) <==> r in store && IsLive(r, now)
    ensures |Loaded(read, now)| == |Loaded(store, now)|
    ensures multiset(Loaded(read, now)) == multiset(Loaded(store, now))
    ensures UniqueIds(store) ==> UniqueIds(Loaded(read, now))
  {
    LoadedSpec(read, now);
    LiveMultiset(read, store, now);
    SortPermutes(Live(read, now));
    SortPermutes(Live(store, now));
    forall r ensures r in read <==> r in store {
      assert r in read <==> r in multiset(read);
    }
    if UniqueIds(store) {
      PermutationUnique(store, read);
      LoadedSpec(read, now);
    }
  }

  /** The unexpired records of two reorderings of one list are reorderings of each other. */
  lemma {:induction false} LiveMultiset(a: seq<Recording>, b: seq<Recording>, now: int)
    requires multiset(a) == multiset(b)
    ensures multiset(Live(a, now)) == multiset(Live(b, now))
  {
    FilterMultiset(a, r => IsLive(r, now));
    FilterMultiset(b, r => IsLive(r, now));
    forall x
      ensures multiset(Live(a, now))[x] == multiset(Live(b, now))[x]
    {
    }
  }

  // ---------------------------------------------------------------------------
  // The hook's state

  class Cache {
    /** `recordings`: the list the hook exposes. */
    var mem: seq<Recording>
    /** The persisted object store's records. */
    var store: seq<Recording>
    /** `isInitialized`: a database handle was obtained. */
    var initialized: bool
    /** `storageError`; `None` for null. */
    var storageError: Option<string>

    /** No two records share a key, in the store and in the exposed list. */
    ghost predicate Valid()
      reads this
    {
      UniqueIds(store) && UniqueIds(mem)
    }

    /** The hook on mount: an empty list over what the store already holds. */
    constructor (persisted: seq<Recording>)
      requires UniqueIds(persisted)
      ensures Valid()
      ensures mem == [] && store == persisted && !initialized && storageError == None
    {
      mem := [];
      store := persisted;
      initialized := false;
      storageError := None;
    }

    /**
     * The open request's outcome: on error only the error is set; on success the handle is
     * kept and the hook counts as initialised. The load it starts finishes later, as
     * `LoadRecordings`.
     */
    method Open(succeeded: bool)
      requires Valid()
      modifies this`initialized, this`storageError
      ensures Valid()
      ensures succeeded ==> initialized && storageError == old(storageError)
      ensures !succeeded ==> initialized == old(initialized) && storageError == Some(InitError)
    {
      if !succeeded {
        storageError := Some(InitError);
        return;
      }
      initialized := true;
    }

    /**
     * `saveToStorage`: in one read-write transaction, clear the store and add every record of
     * `list` in order. `failAt` is the first request the environment fails: 0 the clear,
     * `i + 1` the add of `list[i]`, anything beyond `|list|` none. An add also fails when its
     * key is already in the store. A failed request aborts the transaction, so the store keeps
     * its old records. The list is published as soon as every request succeeded, before the
     * transaction commits; `commitOk` says whether the commit then succeeds. A failed commit
     * rolls the store back unobserved, leaving the published list and a cleared error.
     */
    method SaveToStorage(list: seq<Recording>, failAt: nat, commitOk: bool) returns (ok: bool)
      requires Valid()
      modifies this`mem, this`store, this`storageError
      ensures Valid()
      ensures ok <==> failAt > |list| && UniqueIds(list)
      ensures ok ==> mem == list && storageError == None && store == if commitOk then list else old(store)
      ensures !ok ==> store == old(store) && mem == old(mem) && storageError == Some(SaveError)
    {
      if failAt == 0 {
        storageError := Some(SaveError);
        return false;
      }
      var pending: seq<Recording> := [];
      var i := 0;
      while i < |list|
        invariant 0 <= i <= |list| && i < failAt
        invariant pending == list[..i]
        invariant UniqueIds(pending)
        invariant mem == old(mem) && store == old(store)
      {
        if failAt == i + 1 || HasId(pending, list[i].id) {
          if HasId(pending, list[i].id) {
            var m :| 0 <= m < i && pending[m].id == list[i].id;
            assert list[m].id == list[i].id;
          }
          storageError := Some(SaveError);
          return false;
        }
        AppendUnique(pending, list[i]);
        pending := pending + [list[i]];
        i := i + 1;
      }
      assert pending == list;
      if commitOk {
        store := pending;
      }
      mem := list;
      storageError := None;
      return true;
    }

    /**
     * `loadRecordings`, once `getAll` completes (`readOk`) or fails. `read` is the store's
     * records in the order `getAll` returns them (key order), a permutation of `store`. The
     * unexpired records, newest first, are rewritten to the store when any expired, or else
     * only shown.
     */
    method LoadRecordings(read: seq<Recording>, now: int, readOk: bool, failAt: nat, commitOk: bool)
      requires Valid() && multiset(read) == multiset(store)
      modifies this`mem, this`store, this`storageError
      ensures Valid()
      ensures !readOk ==> mem == old(mem) && store == old(store) && storageError == Some(LoadError)
      ensures readOk && |Loaded(read, now)| == |read| ==>
                mem == Loaded(read, now) && store == old(store) && storageError == old(storageError)
      ensures readOk && |Loaded(read, now)| != |read| && failAt > |Loaded(read, now)| ==>
                mem == Loaded(read, now) && storageError == None &&
                store == if commitOk then mem else old(store)
      ensures readOk && |Loaded(read, now)| != |read| && failAt <= |Loaded(read, now)| ==>
                mem == old(mem) && store == old(store) && storageError == Some(SaveError)
    {
      if !readOk {
        storageError := Some(LoadError);
        return;
      }
      PermutationUnique(store, read);
      var valid := Loaded(read, now);
      LoadedSpec(read, now);
      if |read| != |valid| {
        var saved := SaveToStorage(valid, failAt, commitOk);
      } else {
        mem := valid;
      }
    }

    /**
     * `addRecording(blob, metadata)`. `now` is the first clock reading, `readDone` the one taken
     * after the payload was read (`readOk`), `freshId` the generated id. The limit is checked
     * against the unexpired records of the exposed list; the new list is those records and the
     * new one, newest first.
     */
    method AddRecording(blob: Blob, metadata: Metadata, now: int, readOk: bool, readDone: int, freshId: string,
                        failAt: nat, commitOk: bool)
      returns (result: Result<Recording, Failure>)
      requires Valid()
      modifies this`mem, this`store, this`storageError
      ensures Valid()
      ensures !initialized ==>
                result == Err(NotInitialized) && mem == old(mem) && store == old(store) && storageError == old(storageError)
      ensures initialized && |Live(old(mem), now)| >= MaxRecordings ==>
                result == Err(LimitReached) && mem == old(mem) && store == old(store) && storageError == old(storageError)
      ensures initialized && |Live(old(mem), now)| < MaxRecordings && !readOk ==>
                result == Err(AddFailed) && mem == old(mem) && store == old(store) && storageError == old(storageError)
      ensures initialized && |Live(old(mem), now)| < MaxRecordings && readOk ==>
                var rec := NewRecording(freshId, blob, metadata, |Live(old(mem), now)|, now, readDone);
                var list := SortNewestFirst(Live(old(mem), now) + [rec]);
                (result.Ok? <==> failAt > |list| && UniqueIds(list)) &&
                (!HasId(Live(old(mem), now), rec.id) ==> (result.Ok? <==> failAt > |list|)) &&
                (result.Ok? ==>
                  result.value == rec && mem == list && storageError == None &&
                  store == if commitOk then list else old(store)) &&
                (result.Err? ==>
                  result.error == AddFailed && mem == old(mem) && store == old(store) && storageError == Some(SaveError))
    {
      if !initialized {
        return Err(NotInitialized);
      }
      var valid := Live(mem, now);
      if |valid| >= MaxRecordings {
        return Err(LimitReached);
      }
      if !readOk {
        return Err(AddFailed);
      }
      var rec := NewRecording(freshId, blob, metadata, |valid|, now, readDone);
      var list := SortNewestFirst(valid + [rec]);
      if !HasId(valid, rec.id) {
        AddedUnique(mem, rec, now);
      }
      var ok := SaveToStorage(list, failAt, commitOk);
      if !ok {
        return Err(AddFailed);
      }
      return Ok(rec);
    }

    /** `deleteRecording(id)`: save the exposed list without the records carrying `id`. */
    method DeleteRecording(id: string, failAt: nat, commitOk: bool) returns (failure: Option<Failure>)
      requires Valid()
      modifies this`mem, this`store, this`storageError
      ensures Valid()
      ensures !initialized ==>
                failure == Some(NotInitialized) && mem == old(mem) && store == old(store) && storageError == old(storageError)
      ensures initialized ==> (failure == None <==> failAt > |WithoutId(old(mem), id)|)
      ensures initialized && failure == None ==>
                mem == WithoutId(old(mem), id) && storageError == None &&
                store == if commitOk then mem else old(store)
      ensures initialized && failure != None ==>
                failure == Some(DeleteFailed) && mem == old(mem) && store == old(store) && storageError == Some(SaveError)
    {
      if !initialized {
        return Some(NotInitialized);
      }
      WithoutIdSpec(mem, id);
      var ok := SaveToStorage(WithoutId(mem, id), failAt, commitOk);
      if !ok {
        return Some(DeleteFailed);
      }
      return None;
    }

    /** `clearAllRecordings`: save the empty list. */
    method ClearAllRecordings(failAt: nat, commitOk: bool) returns (failure: Option<Failure>)
      requires Valid()
      modifies this`mem, this`store, this`storageError
      ensures Valid()
      ensures !initialized ==>
                failure == Some(NotInitialized) && mem == old(mem) && store == old(store) && storageError == old(storageError)
      ensures initialized && failAt > 0 ==>
                failure == None && mem == [] && storageError == None &&
                store == if commitOk then [] else old(store)
      ensures initialized && failAt == 0 ==>
                failure == Some(ClearFailed) && mem == old(mem) && store == old(store) && storageError == Some(SaveError)
    {
      if !initialized {
        return Some(NotInitialized);
      }
      var ok := SaveToStorage([], failAt, commitOk);
      if !ok {
        return Some(ClearFailed);
      }
      return None;
    }

    /**
     * `getRecordingBlob(id)`: the payload of the first exposed record with that id. No
     * initialisation or expiry check is made. `fetchOk` says whether turning the stored data
     * URL back into a blob succeeded.
     */
    method GetRecordingBlob(id: string, fetchOk: bool) returns (result: Result<Blob, Failure>)
      ensures result == Err(NotFound) <==>
                Lookup(mem, id).None? || Lookup(mem, id).value.audioData.None?
      ensures Lookup(mem, id).Some? && Lookup(mem, id).value.audioData.Some? && fetchOk ==>
                result == Ok(Lookup(mem, id).value.audioData.value)
      ensures result.Ok? ==>
                fetchOk && Lookup(mem, id).Some? && Lookup(mem, id).value.audioData == Some(result.value) &&
                exists i :: 0 <= i < |mem| && mem[i].id == id && mem[i].audioData == Some(result.value) &&
                  forall k :: 0 <= k < i ==> mem[k].id != id
      ensures Lookup(mem, id).Some? && Lookup(mem, id).value.audioData.Some? && !fetchOk ==> result == Err(BlobFailed)
    {
      LookupSpec(mem, id);
      var found := Lookup(mem, id);
      if found.None? || found.value.audioData.None? {
        return Err(NotFound);
      }
      if !fetchOk {
        return Err(BlobFailed);
      }
      return Ok(found.value.audioData.value);
    }
  }

  /** Deleting an id no exposed record carries saves the list unchanged. */
  method DeleteAbsentKeepsList(persisted: seq<Recording>, id: string)
    returns (before: seq<Recording>, after: seq<Recording>)
    requires UniqueIds(persisted) && !HasId(Live(persisted, 0), id)
    ensures before == after
  {
    var c := new Cache(persisted);
    c.Open(true);
    c.LoadRecordings(persisted, 0, true, |persisted| + 1, true);
    before := c.mem;
    LoadedSpec(persisted, 0);
    LiveMembers(persisted, 0);
    forall m | 0 <= m < |c.mem|
      ensures c.mem[m].id != id
    {
      assert c.mem[m] in Live(persisted, 0);
    }
    var failure := c.DeleteRecording(id, |persisted| + 1, true);
    WithoutIdSpec(before, id);
    after := c.mem;
  }
}
