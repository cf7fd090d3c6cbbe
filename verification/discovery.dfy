/** The etcd discovery: services are read from the store under
    `<prefix>/<name>`, optionally cached per name and refreshed by a watch.
    The store read is the only foreign call; its failure is a parameter
    (`readErr`), as is the client creation at construction. */
module EtcdDiscovery {
  import opened Base
  import opened Text
  import opened ServiceEntity
  import opened KvStore
  import EtcdOptions
  import opened FilterMaps

  /** The key every instance of `name` lives under: `%s/%s`. */
  function ServicesKey(prefix: string, name: string): (k: string)
    ensures HasPrefix(k, prefix) && |k| == |prefix| + 1 + |name|
  {
    prefix + "/" + name
  }

  /** The key of one registered instance: `%s/%s/%s`. */
  function InstanceKey(prefix: string, name: string, id: string): (k: string)
    ensures HasPrefix(k, ServicesKey(prefix, name))
  {
    prefix + "/" + name + "/" + id
  }

  /** etcdDiscovery: the key prefix, the per-name service list and the
      watch switch. */
  datatype Discovery = Discovery(prefix: string, cache: map<string, seq<Service>>, disableWatch: bool)

  /** NewDiscovery: the options folded over the discovery defaults; only
      the prefix and the watch switch are kept. `dialErr` is the failure of
      creating the etcd client, if it failed. */
  function NewDiscovery(endpoints: seq<string>, opts: seq<EtcdOptions.Option>, dialErr: Option<StoreError>): (r: Result<Discovery, StoreError>)
    ensures dialErr.Some? ==> r == Failure(dialErr.value)
    ensures dialErr.None? ==> r.Success? && r.value.cache == map[]
    ensures r.Success? ==> (r.value.prefix == EtcdOptions.ApplyAll(EtcdOptions.DiscoveryDefaults(endpoints), opts).prefix
      && r.value.disableWatch == EtcdOptions.ApplyAll(EtcdOptions.DiscoveryDefaults(endpoints), opts).disableWatch)
  {
    var o := EtcdOptions.ApplyAll(EtcdOptions.DiscoveryDefaults(endpoints), opts);
    if dialErr.Some? then Failure(dialErr.value)
    else Success(Discovery(o.prefix, map[], o.disableWatch))
  }

  /** The decodable values among `es`, in order; undecodable ones are
      skipped (only logged). */
  function DecodeAll(es: seq<Entry>): (r: seq<Service>)
    ensures forall s :: s in r <==> exists x :: x in es && Unmarshal(x.value) == Some(s)
    ensures |r| <= |es|
  {
    if |es| == 0 then []
    else
      var rest := DecodeAll(es[1..]);
      assert forall x :: x in es <==> x == es[0] || x in es[1..];
      match Unmarshal(es[0].value)
      case Some(s) => [s] + rest
      case None => rest
  }

  /** Decoding keeps the store's order: a batch decodes piecewise. */
  lemma {:induction false} DecodeAllAppend(a: seq<Entry>, b: seq<Entry>)
    ensures DecodeAll(a + b) == DecodeAll(a) + DecodeAll(b)
    decreases |a|
  {
    if |a| == 0 {
      assert a + b == b;
    } else {
      assert (a + b)[1..] == a[1..] + b;
      DecodeAllAppend(a[1..], b);
    }
  }

  /** The decoding of one fetched entry's value. */
  function DecodeEntry(x: Entry): Option<Service> {
    Unmarshal(x.value)
  }

  /** The decoding loop is FilterMap with DecodeEntry. */
  lemma {:induction false} DecodeAllFilterMap(es: seq<Entry>)
    ensures DecodeAll(es) == FilterMap(es, DecodeEntry)
    decreases |es|
  {
    if |es| > 0 {
      DecodeAllFilterMap(es[1..]);
    }
  }

  /** The decoding loop keeps every decodable entry, once, in order; and
      any list that does so is what the loop builds. */
  lemma DecodeAllPicks(es: seq<Entry>) returns (idx: seq<nat>)
    ensures Picks(es, DecodeEntry, idx, DecodeAll(es))
    ensures forall idx', r :: Picks(es, DecodeEntry, idx', r) ==> r == DecodeAll(es)
  {
    DecodeAllFilterMap(es);
    idx := FilterMapPicks(es, DecodeEntry);
    forall idx', r | Picks(es, DecodeEntry, idx', r)
      ensures r == DecodeAll(es)
    {
      PicksDetermine(es, DecodeEntry, idx', r);
    }
  }

  /** getServicesByName: the decoded values of every key starting with
      `<prefix>/<name>`, in key order. */
  function FetchServices(d: Discovery, st: Store, name: string, readErr: Option<StoreError>): (r: Result<seq<Service>, StoreError>)
    requires st.Valid()
    ensures readErr.Some? ==> r == Failure(readErr.value)
    ensures readErr.None? ==> r.Success?
    ensures r.Success? ==> forall s :: s in r.value <==>
      exists x :: x in st.entries && HasPrefix(x.key, ServicesKey(d.prefix, name)) && Unmarshal(x.value) == Some(s)
    ensures r.Success? ==> r.value == DecodeAll(GetPrefix(st, ServicesKey(d.prefix, name)))
  {
    if readErr.Some? then Failure(readErr.value)
    else Success(DecodeAll(GetPrefix(st, ServicesKey(d.prefix, name))))
  }

  /** A successful fetch holds one record per decodable entry under
      `<prefix>/<name>`, in increasing key order, and nothing else. */
  lemma FetchServicesInOrder(d: Discovery, st: Store, name: string) returns (idx: seq<nat>)
    requires st.Valid()
    ensures var es := GetPrefix(st, ServicesKey(d.prefix, name));
      Sorted(es) && Picks(es, DecodeEntry, idx, FetchServices(d, st, name, None).value)
  {
    idx := DecodeAllPicks(GetPrefix(st, ServicesKey(d.prefix, name)));
  }

  /** A store with no key under the name's prefix yields an empty list. */
  lemma FetchNothing(d: Discovery, st: Store, name: string)
    requires st.Valid()
    requires forall x :: x in st.entries ==> !HasPrefix(x.key, ServicesKey(d.prefix, name))
    ensures FetchServices(d, st, name, None) == Success([])
  {
    GetPrefixNone(st, ServicesKey(d.prefix, name));
  }

  /** A key under the name whose value is the JSON null is listed as the
      zero record rather than skipped: json.Unmarshal accepts it. */
  lemma FetchNullRecord(d: Discovery, st: Store, name: string, x: Entry)
    requires st.Valid() && GetPrefix(st, ServicesKey(d.prefix, name)) == [x] && x.value == NullBlob
    ensures FetchServices(d, st, name, None) == Success([ZeroService])
  {
    assert DecodeAll([x]) == [ZeroService] by {
      assert [x][1..] == [];
    }
  }

  /** What GetServices reports. */
  datatype DiscoveryError = StoreFailed(cause: StoreError) | ServicesNotFound

  /** One GetServices call: its result, the discovery afterwards and
      whether it started a watch on the name. */
  datatype Listing = Listing(result: Result<seq<Service>, DiscoveryError>, next: Discovery, watchStarted: bool)

  /** GetServices. With watching enabled a cached list is returned as is;
      otherwise (and always when watching is disabled) the store is read.
      A read that yields nothing is ErrServicesNotFound and stores nothing;
      a non-empty read is written to the cache in both modes, and starts a
      watch when watching is enabled. */
  function GetServices(d: Discovery, st: Store, name: string, readErr: Option<StoreError>): (r: Listing)
    requires st.Valid()
    ensures !d.disableWatch && name in d.cache ==>
      r == Listing(Success(d.cache[name]), d, false)
    ensures (d.disableWatch || name !in d.cache) && readErr.Some? ==>
      r == Listing(Failure(StoreFailed(readErr.value)), d, false)
    ensures r.result.Failure? ==> r.next == d && !r.watchStarted
    ensures r.result == Failure(ServicesNotFound) <==>
      (d.disableWatch || name !in d.cache) && FetchServices(d, st, name, readErr) == Success([])
    ensures (d.disableWatch || name !in d.cache) && r.result.Success? ==>
      (FetchServices(d, st, name, readErr) == Success(r.result.value)
       && |r.result.value| > 0
       && r.next == d.(cache := d.cache[name := r.result.value])
       && r.watchStarted == !d.disableWatch)
  {
    if !d.disableWatch && name in d.cache then
      Listing(Success(d.cache[name]), d, false)
    else
      match FetchServices(d, st, name, readErr)
      case Failure(e) => Listing(Failure(StoreFailed(e)), d, false)
      case Success(services) =>
        if |services| == 0 then Listing(Failure(ServicesNotFound), d, false)
        else Listing(Success(services), d.(cache := d.cache[name := services]), !d.disableWatch)
  }

  /** reload: a fresh read replaces the cached list wholesale, even by an
      empty one; a failed read is only logged and changes nothing. */
  function Reload(d: Discovery, st: Store, name: string, readErr: Option<StoreError>): (r: Discovery)
    requires st.Valid()
    ensures readErr.Some? ==> r == d
    ensures r.prefix == d.prefix && r.disableWatch == d.disableWatch
    ensures readErr.None? ==> (name in r.cache && FetchServices(d, st, name, readErr) == Success(r.cache[name]))
    ensures forall n :: n != name ==> (n in r.cache <==> n in d.cache) && (n in r.cache ==> r.cache[n] == d.cache[n])
  {
    match FetchServices(d, st, name, readErr)
    case Failure(_) => d
    case Success(services) => d.(cache := d.cache[name := services])
  }

  /** The watch on `<prefix>/<name>` reacts to a put or a delete of any key
      under it (the only two event kinds etcd delivers). */
  predicate TriggersReload(d: Discovery, name: string, ev: Event) {
    (ev.kind == PutEvent || ev.kind == DeleteEvent) && HasPrefix(ev.key, ServicesKey(d.prefix, name))
  }

  /** One watch event for `name`: a reload when it triggers one. */
  function OnWatchEvent(d: Discovery, st: Store, name: string, ev: Event, readErr: Option<StoreError>): (r: Discovery)
    requires st.Valid()
    ensures !TriggersReload(d, name, ev) ==> r == d
    ensures TriggersReload(d, name, ev) ==> r == Reload(d, st, name, readErr)
  {
    if TriggersReload(d, name, ev) then Reload(d, st, name, readErr) else d
  }

  /** Why Get returns no instance: the lookup failed, or the default
      handler was handed an empty list (rand.Intn(0) panics). */
  datatype GetError = LookupFailed(cause: DiscoveryError) | IntnPanic

  /** Get, as written: the first strategy when one is given and non-nil,
      RoundRobinHandler otherwise; further strategies are ignored. `draw`
      is the random draw of the default handler. The result is a *Service,
      None standing for nil. */
  function Get(d: Discovery, st: Store, name: string, readErr: Option<StoreError>,
               handlers: seq<StrategyHandler>, draw: nat): (r: (Result<Option<Service>, GetError>, Discovery))
    requires st.Valid()
    ensures r.1 == GetServices(d, st, name, readErr).next
    ensures GetServices(d, st, name, readErr).result.Failure? ==>
      r.0 == Failure(LookupFailed(GetServices(d, st, name, readErr).result.error))
    ensures GetServices(d, st, name, readErr).result.Success? && |handlers| > 0 && handlers[0].Handler? ==>
      r.0 == Success(handlers[0].choose(GetServices(d, st, name, readErr).result.value))
    ensures r.0 == Failure(IntnPanic) <==>
      (GetServices(d, st, name, readErr).result == Success([]) && (|handlers| == 0 || handlers[0].NilHandler?))
    ensures r.0.Success? && (|handlers| == 0 || handlers[0].NilHandler?) ==>
      (r.0.value.Some? && r.0.value.value in GetServices(d, st, name, readErr).result.value)
  {
    var lookup := GetServices(d, st, name, readErr);
    match lookup.result
    case Failure(e) => (Failure(LookupFailed(e)), lookup.next)
    case Success(services) =>
      if |handlers| > 0 && handlers[0].Handler? then (Success(handlers[0].choose(services)), lookup.next)
      else if |services| == 0 then (Failure(IntnPanic), lookup.next)
      else (Success(Some(RoundRobinHandler(services, draw))), lookup.next)
  }

  /** Get with the empty list the watch can leave behind treated as "no
      services": the default handler is only ever handed a non-empty list. */
  function GetChecked(d: Discovery, st: Store, name: string, readErr: Option<StoreError>,
                      handlers: seq<StrategyHandler>, draw: nat): (r: (Result<Option<Service>, GetError>, Discovery))
    requires st.Valid()
    ensures r.0 != Failure(IntnPanic)
    ensures r.1 == GetServices(d, st, name, readErr).next
    ensures r.0.Success? <==> (GetServices(d, st, name, readErr).result.Success?
      && (|GetServices(d, st, name, readErr).result.value| > 0 || (|handlers| > 0 && handlers[0].Handler?)))
    ensures r.0.Success? && (|handlers| == 0 || handlers[0].NilHandler?) ==>
      (r.0.value.Some? && r.0.value.value in GetServices(d, st, name, readErr).result.value)
    ensures Get(d, st, name, readErr, handlers, draw).0 != Failure(IntnPanic) ==> r == Get(d, st, name, readErr, handlers, draw)
  {
    var (res, next) := Get(d, st, name, readErr, handlers, draw);
    if res == Failure(IntnPanic) then (Failure(LookupFailed(ServicesNotFound)), next) else (res, next)
  }

  // ---------------------------------------------------------------------
  // Properties of the two modes

  /** With watching disabled the cache is written but never read: the
      result does not depend on it. */
  lemma UncachedIgnoresCache(d: Discovery, cache: map<string, seq<Service>>, st: Store, name: string, readErr: Option<StoreError>)
    requires st.Valid() && d.disableWatch
    ensures GetServices(d, st, name, readErr).result == GetServices(d.(cache := cache), st, name, readErr).result
  {
  }

  /** With watching enabled a cached name is answered without the store. */
  lemma CachedHitIgnoresStore(d: Discovery, st1: Store, st2: Store, name: string,
                              e1: Option<StoreError>, e2: Option<StoreError>)
    requires st1.Valid() && st2.Valid()
    requires !d.disableWatch && name in d.cache
    ensures GetServices(d, st1, name, e1) == GetServices(d, st2, name, e2)
  {
  }

  /** With watching enabled, a successful miss fills the cache, so the next
      call returns the same list whatever the store holds by then. */
  lemma MissThenHit(d: Discovery, st1: Store, st2: Store, name: string,
                    e1: Option<StoreError>, e2: Option<StoreError>)
    requires st1.Valid() && st2.Valid() && !d.disableWatch
    requires GetServices(d, st1, name, e1).result.Success?
    ensures GetServices(GetServices(d, st1, name, e1).next, st2, name, e2).result
      == GetServices(d, st1, name, e1).result
  {
  }

  /** The prefix read for `name` also returns instances of every longer
      name that starts with it ("user" also reads "users"). */
  lemma FetchMatchesLongerName(d: Discovery, st: Store, name: string, suffix: string, id: string, x: Entry)
    requires st.Valid() && x in st.entries
    requires x.key == InstanceKey(d.prefix, name + suffix, id) && Unmarshal(x.value).Some?
    ensures Unmarshal(x.value).value in FetchServices(d, st, name, None).value
  {
    var p := ServicesKey(d.prefix, name);
    assert HasPrefix(x.key, p) by {
      LongerNameKey(d.prefix, name, suffix, id);
    }
    var v := Unmarshal(x.value).value;
    assert x in st.entries && HasPrefix(x.key, p) && Unmarshal(x.value) == Some(v);
  }

  /** An instance key of a longer name starts with the shorter name's
      prefix key. */
  lemma LongerNameKey(prefix: string, name: string, suffix: string, id: string)
    ensures HasPrefix(InstanceKey(prefix, name + suffix, id), ServicesKey(prefix, name))
  {
    var p := ServicesKey(prefix, name);
    var k := InstanceKey(prefix, name + suffix, id);
    assert k == p + (suffix + "/" + id);
    assert k[..|p|] == p;
  }

  /** After the watch reloads a name whose keys are all gone, the cached
      empty list is served with no error, where a plain miss reports
      ErrServicesNotFound. */
  lemma ReloadToEmpty(d: Discovery, st: Store, st2: Store, name: string, e2: Option<StoreError>)
    requires st.Valid() && st2.Valid() && !d.disableWatch
    requires FetchServices(d, st, name, None) == Success([])
    ensures GetServices(Reload(d, st, name, None), st2, name, e2).result == Success([])
    ensures GetServices(d.(cache := d.cache - {name}), st, name, None).result == Failure(ServicesNotFound)
  {
  }

  /** The consequence: Get with the default handler panics on that name,
      while GetChecked reports ErrServicesNotFound. */
  lemma GetPanicsAfterReloadToEmpty(d: Discovery, st: Store, st2: Store, name: string, draw: nat)
    requires st.Valid() && st2.Valid() && !d.disableWatch
    requires FetchServices(d, st, name, None) == Success([])
    ensures Get(Reload(d, st, name, None), st2, name, None, [], draw).0 == Failure(IntnPanic)
    ensures GetChecked(Reload(d, st, name, None), st2, name, None, [], draw).0 == Failure(LookupFailed(ServicesNotFound))
  {
    ReloadToEmpty(d, st, st2, name, None);
  }
}
