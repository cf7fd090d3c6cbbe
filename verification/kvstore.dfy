/** The coordination store (etcd) as the registry and discovery see it:
    keys kept in byte order, each bound to at most one lease, with put,
    delete, prefix get, lease grant and lease expiry. Every store call the
    source makes can fail; those outcomes are parameters of the operations
    that call the store, not of the store itself. */
module KvStore {
  import opened Base
  import opened Text
  import opened ServiceEntity

  /** Lexicographic order on keys. etcd orders keys by their bytes, and
      code-point order coincides with UTF-8 byte order. */
  predicate Less(a: string, b: string)
    decreases |a|
  {
    if |a| == 0 then |b| > 0
    else if |b| == 0 then false
    else if a[0] != b[0] then a[0] < b[0]
    else Less(a[1..], b[1..])
  }

  lemma {:induction false} LessIrreflexive(a: string)
    ensures !Less(a, a)
    decreases |a|
  {
    if |a| > 0 {
      LessIrreflexive(a[1..]);
    }
  }

  lemma {:induction false} LessTransitive(a: string, b: string, c: string)
    requires Less(a, b) && Less(b, c)
    ensures Less(a, c)
    decreases |a|
  {
    if |a| > 0 && |b| > 0 && |c| > 0 && a[0] == b[0] && b[0] == c[0] {
      LessTransitive(a[1..], b[1..], c[1..]);
    }
  }

  lemma {:induction false} LessTotal(a: string, b: string)
    requires a != b
    ensures Less(a, b) || Less(b, a)
    decreases |a|
  {
    if |a| > 0 && |b| > 0 && a[0] == b[0] {
      assert a == [a[0]] + a[1..] && b == [b[0]] + b[1..];
      LessTotal(a[1..], b[1..]);
    }
  }

  lemma LessAsymmetric(a: string, b: string)
    requires Less(a, b)
    ensures !Less(b, a)
  {
    if Less(b, a) {
      LessTransitive(a, b, a);
      LessIrreflexive(a);
    }
  }

  /** An etcd lease ID. */
  type LeaseId = int

  /** One key with its value and the lease it is attached to, if any. */
  datatype Entry = Entry(key: string, value: Blob, lease: Option<LeaseId>)

  /** Entries in strictly increasing key order, hence with distinct keys. */
  predicate Sorted(es: seq<Entry>) {
    forall i, j :: 0 <= i < j < |es| ==> Less(es[i].key, es[j].key)
  }

  /** Every other member of a sorted list sorts after its head. */
  lemma SortedHead(a: seq<Entry>, x: Entry)
    requires Sorted(a) && x in a && x != a[0]
    ensures Less(a[0].key, x.key)
  {
    var i :| 0 <= i < |a| && a[i] == x;
  }

  /** Two sorted lists with the same members have the same head. */
  lemma SameHead(a: seq<Entry>, b: seq<Entry>)
    requires Sorted(a) && Sorted(b) && |a| > 0 && |b| > 0
    requires forall x :: x in a <==> x in b
    ensures a[0] == b[0]
  {
    if a[0] != b[0] {
      assert a[0] in b && b[0] in a;
      SortedHead(a, b[0]);
      SortedHead(b, a[0]);
      LessAsymmetric(a[0].key, b[0].key);
    }
  }

  /** Dropping a shared head keeps the members of the tails equal. */
  lemma SameTail(a: seq<Entry>, b: seq<Entry>)
    requires Sorted(a) && Sorted(b) && |a| > 0 && |b| > 0 && a[0] == b[0]
    requires forall x :: x in a <==> x in b
    ensures forall x :: x in a[1..] <==> x in b[1..]
  {
    LessIrreflexive(a[0].key);
    forall x | x in a[1..]
      ensures x in b[1..]
    {
      var i :| 0 <= i < |a[1..]| && a[1..][i] == x;
      assert Less(a[0].key, a[i + 1].key);
      assert x in a && x != b[0];
      var k :| 0 <= k < |b| && b[k] == x;
      assert b[1..][k - 1] == x;
    }
    forall x | x in b[1..]
      ensures x in a[1..]
    {
      var i :| 0 <= i < |b[1..]| && b[1..][i] == x;
      assert Less(b[0].key, b[i + 1].key);
      assert x in b && x != a[0];
      var k :| 0 <= k < |a| && a[k] == x;
      assert a[1..][k - 1] == x;
    }
  }

  /** Two key-sorted entry lists with the same members are the same list:
      the members alone fix the order. */
  lemma {:induction false} SortedUnique(a: seq<Entry>, b: seq<Entry>)
    requires Sorted(a) && Sorted(b)
    requires forall x :: x in a <==> x in b
    ensures a == b
    decreases |a|
  {
    assert |a| == 0 || a[0] in a;
    assert |b| == 0 || b[0] in b;
    if |a| > 0 {
      SameHead(a, b);
      SameTail(a, b);
      assert Sorted(a[1..]) && Sorted(b[1..]);
      SortedUnique(a[1..], b[1..]);
      assert a == [a[0]] + a[1..] && b == [b[0]] + b[1..];
    }
  }

  /** The entry under `key`, if any. */
  function Lookup(es: seq<Entry>, key: string): (r: Option<Entry>)
    ensures r.Some? ==> r.value in es && r.value.key == key
    ensures r.None? ==> forall x :: x in es ==> x.key != key
  {
    if |es| == 0 then None
    else if es[0].key == key then Some(es[0])
    else Lookup(es[1..], key)
  }

  /** In a sorted list an entry is the one found under its own key. */
  lemma LookupMember(es: seq<Entry>, x: Entry)
    requires Sorted(es) && x in es
    ensures Lookup(es, x.key) == Some(x)
  {
    var y := Lookup(es, x.key).value;
    if y != x {
      var i :| 0 <= i < |es| && es[i] == x;
      var j :| 0 <= j < |es| && es[j] == y;
      if i < j {
        LessIrreflexive(x.key);
      } else {
        LessIrreflexive(y.key);
      }
    }
  }

  /** Writes `e`, replacing any entry under the same key and keeping the
      key order. */
  function Insert(es: seq<Entry>, e: Entry): (r: seq<Entry>)
    requires Sorted(es)
    ensures Sorted(r)
    ensures e in r
    ensures forall x :: x in r ==> x == e || (x in es && x.key != e.key)
    ensures forall x :: x in es && x.key != e.key ==> x in r
  {
    if |es| == 0 then [e]
    else if es[0].key == e.key then
      assert forall j :: 1 <= j < |es| ==> Less(e.key, es[j].key);
      forall x | x in es[1..] ensures x.key != e.key {
        LessIrreflexive(e.key);
      }
      [e] + es[1..]
    else if Less(e.key, es[0].key) then
      forall j | 0 <= j < |es| ensures Less(e.key, es[j].key) && es[j].key != e.key {
        if j > 0 { LessTransitive(e.key, es[0].key, es[j].key); }
        LessIrreflexive(e.key);
      }
      [e] + es
    else
      LessTotal(e.key, es[0].key);
      var rest := Insert(es[1..], e);
      assert forall x :: x in rest ==> Less(es[0].key, x.key);
      [es[0]] + rest
  }

  /** The entries satisfying `keep`, in their original order. */
  function Filter(es: seq<Entry>, keep: Entry -> bool): (r: seq<Entry>)
    ensures forall x :: x in r <==> x in es && keep(x)
    ensures |r| <= |es|
    ensures Sorted(es) ==> Sorted(r)
  {
    if |es| == 0 then []
    else
      var rest := Filter(es[1..], keep);
      assert Sorted(es) ==> forall x :: x in rest ==> Less(es[0].key, x.key) by {
        if Sorted(es) {
          forall x | x in rest ensures Less(es[0].key, x.key) {
            var j :| 0 <= j < |es[1..]| && es[1..][j] == x;
            assert es[j + 1] == x;
          }
        }
      }
      if keep(es[0]) then [es[0]] + rest else rest
  }

  /** A store-side failure (unavailable cluster, deadline exceeded, ...). */
  datatype StoreError = StoreError(reason: string)

  /** The store: its entries and the leases currently granted. */
  datatype Store = Store(entries: seq<Entry>, leases: set<LeaseId>) {
    /** Keys stay sorted and every entry's lease is a granted one. */
    predicate Valid() {
      && Sorted(entries)
      && forall x :: x in entries && x.lease.Some? ==> x.lease.value in leases
    }
  }

  /** Put with an (already granted) lease. */
  function Put(st: Store, key: string, value: Blob, lease: Option<LeaseId>): (r: Store)
    requires st.Valid()
    requires lease.Some? ==> lease.value in st.leases
    ensures r.Valid() && r.leases == st.leases
    ensures Lookup(r.entries, key) == Some(Entry(key, value, lease))
    ensures forall k :: k != key ==> Lookup(r.entries, k) == Lookup(st.entries, k)
  {
    var e := Entry(key, value, lease);
    var es := Insert(st.entries, e);
    LookupMember(es, e);
    forall k | k != key
      ensures Lookup(es, k) == Lookup(st.entries, k)
    {
      var a := Lookup(st.entries, k);
      if a.Some? {
        LookupMember(es, a.value);
      } else {
        var b := Lookup(es, k);
        assert b.None?;
      }
    }
    Store(es, st.leases)
  }

  /** Delete of one key; deleting an absent key succeeds and changes nothing. */
  function Delete(st: Store, key: string): (r: Store)
    requires st.Valid()
    ensures r.Valid() && r.leases == st.leases
    ensures Lookup(r.entries, key).None?
    ensures forall x :: x in r.entries <==> x in st.entries && x.key != key
  {
    Store(Filter(st.entries, (x: Entry) => x.key != key), st.leases)
  }

  /** Get with the WithPrefix option: every entry whose key starts with
      `prefix`, in key order. */
  function GetPrefix(st: Store, prefix: string): (r: seq<Entry>)
    requires st.Valid()
    ensures Sorted(r)
    ensures forall x :: x in r <==> x in st.entries && HasPrefix(x.key, prefix)
  {
    Filter(st.entries, (x: Entry) => HasPrefix(x.key, prefix))
  }

  /** No entry passes the test: the filter keeps nothing. */
  lemma {:induction false} FilterNone(es: seq<Entry>, keep: Entry -> bool)
    requires forall x :: x in es ==> !keep(x)
    ensures Filter(es, keep) == []
  {
    if |es| > 0 {
      assert es[0] in es;
      FilterNone(es[1..], keep);
    }
  }

  /** A prefix no key starts with selects nothing. */
  lemma GetPrefixNone(st: Store, prefix: string)
    requires st.Valid()
    requires forall x :: x in st.entries ==> !HasPrefix(x.key, prefix)
    ensures GetPrefix(st, prefix) == []
  {
    FilterNone(st.entries, (x: Entry) => HasPrefix(x.key, prefix));
  }

  /** A lease grant: the store now knows the lease. */
  function Grant(st: Store, id: LeaseId): (r: Store)
    requires st.Valid()
    ensures r.Valid() && r.entries == st.entries && r.leases == st.leases + {id}
  {
    Store(st.entries, st.leases + {id})
  }

  /** A lease that lapses (TTL passed without renewal) or is revoked takes
      every key attached to it along. */
  function Expire(st: Store, id: LeaseId): (r: Store)
    requires st.Valid()
    ensures r.Valid() && r.leases == st.leases - {id}
    ensures forall x :: x in r.entries <==> x in st.entries && x.lease != Some(id)
  {
    Store(Filter(st.entries, (x: Entry) => x.lease != Some(id)), st.leases - {id})
  }

  /** The two kinds of change a watch reports. */
  datatype EventKind = PutEvent | DeleteEvent

  /** A change to one key, as delivered by a watch. */
  datatype Event = Event(kind: EventKind, key: string)
}
