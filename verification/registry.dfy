/** The etcd registry: Register resolves the address, grants a lease, puts
    the encoded record under `<prefix>/<name>/<instanceID>` on that lease
    and starts the keepalive; Deregister deletes the key and closes the
    stop signal. Every foreign outcome (generated ID, interface addresses,
    lease grant, put, keepalive, delete) is a parameter, so each error path
    shows exactly which changes happened before it. */
module EtcdRegistry {
  import opened Base
  import opened Text
  import opened ServiceEntity
  import opened KvStore
  import opened NetAddr
  import opened EtcdDiscovery
  import EtcdOptions
  import GUtils

  /** etcdRegistry: key prefix, lease TTL (seconds), the lease of the last
      complete registration (registerMeta) and whether `stop` is closed. */
  datatype Registry = Registry(prefix: string, leaseTTL: int, meta: Option<LeaseId>, stopClosed: bool)

  /** NewRegistry: the options folded over the registry defaults. */
  function NewRegistry(endpoints: seq<string>, opts: seq<EtcdOptions.Option>, dialErr: Option<StoreError>): (r: Result<Registry, StoreError>)
    ensures dialErr.Some? ==> r == Failure(dialErr.value)
    ensures dialErr.None? ==> (r.Success? && r.value.meta.None? && !r.value.stopClosed)
    ensures r.Success? ==> (r.value.prefix == EtcdOptions.ApplyAll(EtcdOptions.RegistryDefaults(endpoints), opts).prefix
      && r.value.leaseTTL == EtcdOptions.ApplyAll(EtcdOptions.RegistryDefaults(endpoints), opts).leaseTTL)
  {
    var o := EtcdOptions.ApplyAll(EtcdOptions.RegistryDefaults(endpoints), opts);
    if dialErr.Some? then Failure(dialErr.value)
    else Success(Registry(o.prefix, o.leaseTTL, None, false))
  }

  /** Without options the registry uses the default prefix and a 60 s TTL;
      a WithLeaseTTL anywhere in the list decides it when it is the last. */
  lemma NewRegistryDefaults(endpoints: seq<string>, ttl: int)
    ensures NewRegistry(endpoints, [], None) == Success(Registry(EtcdOptions.DefaultPrefix, EtcdOptions.DefaultLeaseTTL, None, false))
    ensures NewRegistry(endpoints, [EtcdOptions.WithLeaseTTL(ttl)], None).value.leaseTTL == ttl
  {
    assert [EtcdOptions.WithLeaseTTL(ttl)][..0] == [];
  }

  /** Why Register failed. */
  datatype RegisterError =
    | ResolveFailed(address: string, cause: ResolveError)
    | GrantFailed(grantErr: StoreError)
    | MarshalFailed(reason: string)
    | PutFailed(putErr: StoreError)
    | KeepAliveFailed(keepAliveErr: StoreError)

  /** What the outside world answers during one Register call, in the order
      it is asked: what gutils.Uuid draws on for a missing instance ID, the
      interface addresses (for a wildcard host), the lease grant, the put
      and the keepalive request. */
  datatype RegisterEnv = RegisterEnv(
    uuid: GUtils.UuidSource,
    ifaces: Option<seq<IfaceAddr>>,
    grant: Result<LeaseId, StoreError>,
    putErr: Option<StoreError>,
    keepAliveErr: Option<StoreError>)

  /** The outcome of Register: the error (if any), the registry, the
      caller's record (Register writes to it through the pointer) and the
      store. */
  datatype Registered = Registered(result: Result<(), RegisterError>, reg: Registry, svc: Service, store: Store)

  /** The instance ID gutils.Uuid generates: 32 characters, no dashes. */
  function GeneratedId(u: GUtils.UuidSource): (id: string)
    ensures |id| == 32 && '-' !in id
  {
    GUtils.Uuid(u.random, u.ns, u.draw, u.md5)
  }

  /** The record with an instance ID: a missing one is generated, so the
      result always has one. */
  function WithInstanceId(s: Service, u: GUtils.UuidSource): (r: Service)
    ensures r.instanceId != ""
    ensures s.instanceId != "" ==> r == s
    ensures s.instanceId == "" ==> r == s.(instanceId := GeneratedId(u))
  {
    if s.instanceId == "" then s.(instanceId := GeneratedId(u)) else s
  }

  /** register: encode the record and put it under its instance key on
      the lease. */
  function PutRecord(e: Registry, st: Store, s: Service, lease: LeaseId, putErr: Option<StoreError>): (r: Result<Store, RegisterError>)
    requires st.Valid() && lease in st.leases
    ensures Marshal(s).Failure? ==> r == Failure(MarshalFailed(Marshal(s).error))
    ensures Marshal(s).Success? && putErr.Some? ==> r == Failure(PutFailed(putErr.value))
    ensures r.Success? ==> (Marshal(s).Success? && r.value.Valid() && r.value.leases == st.leases
      && Lookup(r.value.entries, InstanceKey(e.prefix, s.name, s.instanceId))
         == Some(Entry(InstanceKey(e.prefix, s.name, s.instanceId), Marshal(s).value, Some(lease)))
      && forall k :: k != InstanceKey(e.prefix, s.name, s.instanceId) ==> Lookup(r.value.entries, k) == Lookup(st.entries, k))
  {
    match Marshal(s)
    case Failure(m) => Failure(MarshalFailed(m))
    case Success(b) =>
      if putErr.Some? then Failure(PutFailed(putErr.value))
      else Success(Put(st, InstanceKey(e.prefix, s.name, s.instanceId), b, Some(lease)))
  }

  /** Register. The instance ID is filled in first and the resolved address
      written back before the lease is asked for, so the caller's record
      keeps both even when a later step fails. A granted lease stays granted
      whatever follows; the key is written before the keepalive is asked
      for; the registry remembers the lease only when every step
      succeeded. */
  function Register(e: Registry, st: Store, s: Service, env: RegisterEnv): (r: Registered)
    requires st.Valid()
    ensures r.store.Valid()
    ensures r.svc.instanceId != "" && r.svc.instanceId == WithInstanceId(s, env.uuid).instanceId
    ensures r.svc == WithInstanceId(s, env.uuid).(address := r.svc.address)
    // the address cannot be resolved: nothing else happens
    ensures Resolve(s.address, env.ifaces).Failure? ==>
      r == Registered(Failure(ResolveFailed(s.address, Resolve(s.address, env.ifaces).error)), e,
                      WithInstanceId(s, env.uuid), st)
    ensures Resolve(s.address, env.ifaces).Success? ==> r.svc.address == Resolve(s.address, env.ifaces).value
    // no lease: the store is untouched
    ensures Resolve(s.address, env.ifaces).Success? && env.grant.Failure? ==>
      r.result == Failure(GrantFailed(env.grant.error)) && r.store == st && r.reg == e
    // a lease: it is granted whatever happens next
    ensures Resolve(s.address, env.ifaces).Success? && env.grant.Success? ==>
      r.store.leases == st.leases + {env.grant.value}
    // encoding or put failed: no key written
    ensures r.result.Failure? && (r.result.error.MarshalFailed? || r.result.error.PutFailed?) ==>
      r.store.entries == st.entries && r.reg == e
    // the key is written (with or without a keepalive)
    ensures r.result.Success? || (r.result.Failure? && r.result.error.KeepAliveFailed?) ==>
      (env.grant.Success? && Marshal(r.svc).Success?
       && Lookup(r.store.entries, InstanceKey(e.prefix, r.svc.name, r.svc.instanceId))
          == Some(Entry(InstanceKey(e.prefix, r.svc.name, r.svc.instanceId), Marshal(r.svc).value, Some(env.grant.value))))
    // the registry changes only on full success, and then only its lease
    ensures r.result.Failure? ==> r.reg == e
    ensures r.result.Success? <==>
      (Resolve(s.address, env.ifaces).Success? && env.grant.Success? && Marshal(r.svc).Success?
       && env.putErr.None? && env.keepAliveErr.None?)
    ensures r.result.Success? ==> r.reg == e.(meta := Some(env.grant.value))
  {
    var s1 := WithInstanceId(s, env.uuid);
    match Resolve(s1.address, env.ifaces)
    case Failure(err) => Registered(Failure(ResolveFailed(s1.address, err)), e, s1, st)
    case Success(address) =>
      var s2 := s1.(address := address);
      match env.grant
      case Failure(err) => Registered(Failure(GrantFailed(err)), e, s2, st)
      case Success(lease) =>
        var st1 := Grant(st, lease);
        match PutRecord(e, st1, s2, lease, env.putErr)
        case Failure(err) => Registered(Failure(err), e, s2, st1)
        case Success(st2) =>
          if env.keepAliveErr.Some? then Registered(Failure(KeepAliveFailed(env.keepAliveErr.value)), e, s2, st2)
          else Registered(Success(()), e.(meta := Some(lease)), s2, st2)
  }

  /** Why Deregister failed. Closing the already closed stop channel is a
      panic, not an error return; it is an outcome here so that it can be
      stated. */
  datatype DeregisterError =
    | MissingName
    | DeregisterResolveFailed(address: string, cause: ResolveError)
    | DeleteFailed(deleteErr: StoreError)
    | CloseOfClosedChannel

  /** The outcome of Deregister: the error (if any), the registry and the
      store. */
  datatype Deregistered = Deregistered(result: Result<(), DeregisterError>, reg: Registry, store: Store)

  /** Deregister, as written: an empty name is refused before anything
      else; the address must still resolve (the result is discarded); the
      key is deleted and only then the stop signal closed. */
  function Deregister(e: Registry, st: Store, s: Service, ifaces: Option<seq<IfaceAddr>>, deleteErr: Option<StoreError>): (r: Deregistered)
    requires st.Valid()
    ensures r.store.Valid() && r.store.leases == st.leases
    ensures r.reg.prefix == e.prefix && r.reg.leaseTTL == e.leaseTTL && r.reg.meta == e.meta
    ensures s.name == "" ==> r == Deregistered(Failure(MissingName), e, st)
    ensures s.name != "" && Resolve(s.address, ifaces).Failure? ==>
      r == Deregistered(Failure(DeregisterResolveFailed(s.address, Resolve(s.address, ifaces).error)), e, st)
    ensures s.name != "" && Resolve(s.address, ifaces).Success? && deleteErr.Some? ==>
      r == Deregistered(Failure(DeleteFailed(deleteErr.value)), e, st)
    ensures r.result.Success? || r.result == Failure(CloseOfClosedChannel) ==>
      (s.name != "" && Resolve(s.address, ifaces).Success? && deleteErr.None?
       && Lookup(r.store.entries, InstanceKey(e.prefix, s.name, s.instanceId)).None?
       && (forall x :: x in r.store.entries <==> x in st.entries && x.key != InstanceKey(e.prefix, s.name, s.instanceId))
       && r.reg.stopClosed)
    ensures r.result == Failure(CloseOfClosedChannel) <==>
      (s.name != "" && Resolve(s.address, ifaces).Success? && deleteErr.None? && e.stopClosed)
  {
    if s.name == "" then Deregistered(Failure(MissingName), e, st)
    else
      match Resolve(s.address, ifaces)
      case Failure(err) => Deregistered(Failure(DeregisterResolveFailed(s.address, err)), e, st)
      case Success(_) =>
        if deleteErr.Some? then Deregistered(Failure(DeleteFailed(deleteErr.value)), e, st)
        else
          var st1 := Delete(st, InstanceKey(e.prefix, s.name, s.instanceId));
          if e.stopClosed then Deregistered(Failure(CloseOfClosedChannel), e, st1)
          else Deregistered(Success(()), e.(stopClosed := true), st1)
  }

  /** Deregister with the stop signal closed at most once: a repeated
      call deletes the key again and reports success instead of closing
      the closed channel. */
  function DeregisterChecked(e: Registry, st: Store, s: Service, ifaces: Option<seq<IfaceAddr>>, deleteErr: Option<StoreError>): (r: Deregistered)
    requires st.Valid()
    ensures r.result != Failure(CloseOfClosedChannel)
    ensures r.result.Success? <==> (s.name != "" && Resolve(s.address, ifaces).Success? && deleteErr.None?)
    ensures r.result.Success? ==> (r.reg == e.(stopClosed := true)
      && forall x :: x in r.store.entries <==> x in st.entries && x.key != InstanceKey(e.prefix, s.name, s.instanceId))
    ensures Deregister(e, st, s, ifaces, deleteErr).result != Failure(CloseOfClosedChannel) ==>
      r == Deregister(e, st, s, ifaces, deleteErr)
  {
    var d := Deregister(e, st, s, ifaces, deleteErr);
    if d.result == Failure(CloseOfClosedChannel) then Deregistered(Success(()), d.reg, d.store) else d
  }

  // ---------------------------------------------------------------------
  // Lifecycle

  /** A registered instance is found by discovery under its name, with an
      address that names a concrete host. */
  lemma RegisterThenDiscover(e: Registry, st: Store, s: Service, env: RegisterEnv, d: Discovery)
    requires st.Valid() && d.prefix == e.prefix && d.disableWatch
    requires Register(e, st, s, env).result.Success?
    ensures var r := Register(e, st, s, env);
      && GetServices(d, r.store, r.svc.name, None).result.Success?
      && r.svc in GetServices(d, r.store, r.svc.name, None).result.value
      && !IsWildcardHost(ResolveEndpoint(s.address, env.ifaces).value.host)
      && r.svc.address == ResolveEndpoint(s.address, env.ifaces).value.Text()
  {
    var r := Register(e, st, s, env);
    var key := InstanceKey(e.prefix, r.svc.name, r.svc.instanceId);
    var x := Lookup(r.store.entries, key).value;
    UnmarshalMarshal(r.svc);
    assert x in r.store.entries && HasPrefix(x.key, ServicesKey(d.prefix, r.svc.name));
    assert r.svc in FetchServices(d, r.store, r.svc.name, None).value;
  }

  /** Once the only instance of a name is deregistered, discovery (without
      a cache) reports ErrServicesNotFound for it. */
  lemma DeregisterThenNotFound(e: Registry, st: Store, s: Service, ifaces: Option<seq<IfaceAddr>>, d: Discovery)
    requires st.Valid() && d.prefix == e.prefix && d.disableWatch
    requires forall x :: x in st.entries && HasPrefix(x.key, ServicesKey(e.prefix, s.name)) ==>
      x.key == InstanceKey(e.prefix, s.name, s.instanceId)
    requires Deregister(e, st, s, ifaces, None).result.Success?
    ensures GetServices(d, Deregister(e, st, s, ifaces, None).store, s.name, None).result == Failure(ServicesNotFound)
  {
    var key := InstanceKey(e.prefix, s.name, s.instanceId);
    var st1 := Deregister(e, st, s, ifaces, None).store;
    assert forall x :: x in st1.entries ==> x in st.entries && x.key != key;
    FetchNothing(d, st1, s.name);
  }

  /** When the lease lapses (no keepalive) the instance key goes with it. */
  lemma LeaseExpiryRemovesInstance(e: Registry, st: Store, s: Service, env: RegisterEnv)
    requires st.Valid()
    requires Register(e, st, s, env).result.Success?
    ensures var r := Register(e, st, s, env);
      Lookup(Expire(r.store, env.grant.value).entries, InstanceKey(e.prefix, r.svc.name, r.svc.instanceId)).None?
  {
    var r := Register(e, st, s, env);
    var key := InstanceKey(e.prefix, r.svc.name, r.svc.instanceId);
    var st1 := Expire(r.store, env.grant.value);
    var x := Lookup(r.store.entries, key).value;
    LookupMember(r.store.entries, x);
    forall y | y in st1.entries
      ensures y.key != key
    {
      if y.key == key {
        LookupMember(r.store.entries, y);
      }
    }
  }

  /** A second successful Deregister closes a closed channel. */
  lemma DeregisterTwicePanics(e: Registry, st: Store, s: Service, ifaces: Option<seq<IfaceAddr>>)
    requires st.Valid()
    requires Deregister(e, st, s, ifaces, None).result.Success?
    ensures var r := Deregister(e, st, s, ifaces, None);
      Deregister(r.reg, r.store, s, ifaces, None).result == Failure(CloseOfClosedChannel)
  {
  }

  /** With the checked version a second Deregister succeeds and leaves
      the store as the first one left it. */
  lemma DeregisterCheckedTwice(e: Registry, st: Store, s: Service, ifaces: Option<seq<IfaceAddr>>)
    requires st.Valid()
    requires DeregisterChecked(e, st, s, ifaces, None).result.Success?
    ensures var r := DeregisterChecked(e, st, s, ifaces, None);
      && DeregisterChecked(r.reg, r.store, s, ifaces, None).result.Success?
      && DeregisterChecked(r.reg, r.store, s, ifaces, None).reg == r.reg
      && DeregisterChecked(r.reg, r.store, s, ifaces, None).store.entries == r.store.entries
  {
    var r := DeregisterChecked(e, st, s, ifaces, None);
    var key := InstanceKey(e.prefix, s.name, s.instanceId);
    var r2 := DeregisterChecked(r.reg, r.store, s, ifaces, None);
    assert forall x :: x in r2.store.entries <==> x in r.store.entries;
    SortedUnique(r2.store.entries, r.store.entries);
  }
}
