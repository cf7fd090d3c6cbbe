/** The functional options shared by the etcd registry and discovery, and
    the defaults each constructor starts from. */
module EtcdOptions {
  import Base

  /** One second as a time.Duration (nanoseconds). */
  const Second: int := 1_000_000_000

  /** The prefix both constructors start from. */
  const DefaultPrefix: string := "hestia/registry-etcd"

  /** The registry's lease TTL in seconds before options. */
  const DefaultLeaseTTL: int := 60

  /** etcd.Options. `dialTimeout` is a duration in nanoseconds. */
  datatype Options = Options(
    endpoints: seq<string>,
    dialTimeout: int,
    leaseTTL: int,
    prefix: string,
    username: string,
    password: string,
    disableWatch: bool)

  /** etcd.Option: one functional option, named after its constructor. */
  datatype Option =
    | WithDialTimeout(timeout: int)
    | WithUsername(username: string)
    | WithPassword(password: string)
    | WithPrefix(prefix: string)
    | WithLeaseTTL(ttl: int)
    | WithEnableWatched

  /** The fields of Options, to say which one an option writes. */
  datatype Field = Endpoints | DialTimeout | LeaseTTL | Prefix | Username | Password | DisableWatch

  /** The one field each option writes. */
  function Writes(opt: Option): Field {
    match opt
    case WithDialTimeout(_) => DialTimeout
    case WithUsername(_) => Username
    case WithPassword(_) => Password
    case WithPrefix(_) => Prefix
    case WithLeaseTTL(_) => LeaseTTL
    case WithEnableWatched => DisableWatch
  }

  /** `a` and `b` hold the same value in every field except possibly `f`. */
  predicate AgreeExcept(a: Options, b: Options, f: Field) {
    && (f != Endpoints ==> a.endpoints == b.endpoints)
    && (f != DialTimeout ==> a.dialTimeout == b.dialTimeout)
    && (f != LeaseTTL ==> a.leaseTTL == b.leaseTTL)
    && (f != Prefix ==> a.prefix == b.prefix)
    && (f != Username ==> a.username == b.username)
    && (f != Password ==> a.password == b.password)
    && (f != DisableWatch ==> a.disableWatch == b.disableWatch)
  }

  /** Running one option's closure on the options record. Each stores its
      argument verbatim in its own field; WithEnableWatched clears
      disableWatch. */
  function Apply(o: Options, opt: Option): (r: Options)
    ensures AgreeExcept(o, r, Writes(opt))
    ensures opt.WithDialTimeout? ==> r.dialTimeout == opt.timeout
    ensures opt.WithUsername? ==> r.username == opt.username
    ensures opt.WithPassword? ==> r.password == opt.password
    ensures opt.WithPrefix? ==> r.prefix == opt.prefix
    ensures opt.WithLeaseTTL? ==> r.leaseTTL == opt.ttl
    ensures opt.WithEnableWatched? ==> !r.disableWatch
  {
    match opt
    case WithDialTimeout(d) => o.(dialTimeout := d)
    case WithUsername(u) => o.(username := u)
    case WithPassword(p) => o.(password := p)
    case WithPrefix(p) => o.(prefix := p)
    case WithLeaseTTL(t) => o.(leaseTTL := t)
    case WithEnableWatched => o.(disableWatch := false)
  }

  /** `for _, o := range opts { o(opt) }`: the options in argument order. */
  function ApplyAll(o: Options, opts: seq<Option>): Options
    decreases |opts|
  {
    if |opts| == 0 then o else Apply(ApplyAll(o, opts[..|opts| - 1]), opts[|opts| - 1])
  }

  /** The options NewRegistry starts from. */
  function RegistryDefaults(endpoints: seq<string>): (o: Options)
    ensures o.endpoints == endpoints && o.dialTimeout == 5 * Second
    ensures o.prefix == DefaultPrefix && o.leaseTTL == DefaultLeaseTTL
    ensures o.username == "" && o.password == ""
  {
    Options(endpoints, 5 * Second, DefaultLeaseTTL, DefaultPrefix, "", "", false)
  }

  /** The options NewDiscovery starts from: watching is off by default and
      the lease TTL keeps Go's zero value. */
  function DiscoveryDefaults(endpoints: seq<string>): (o: Options)
    ensures o.endpoints == endpoints && o.dialTimeout == 5 * Second
    ensures o.prefix == DefaultPrefix && o.disableWatch
    ensures o.username == "" && o.password == ""
  {
    Options(endpoints, 5 * Second, 0, DefaultPrefix, "", "", true)
  }

  // ---------------------------------------------------------------------
  // Folding the options

  /** The position of the last option that writes `f`, if any. */
  function LastWriter(opts: seq<Option>, f: Field): (r: Base.Option<nat>)
    ensures r.Some? ==> (r.value < |opts| && Writes(opts[r.value]) == f
      && forall j :: r.value < j < |opts| ==> Writes(opts[j]) != f)
    ensures r.None? ==> forall j :: 0 <= j < |opts| ==> Writes(opts[j]) != f
    decreases |opts|
  {
    if |opts| == 0 then Base.None
    else if Writes(opts[|opts| - 1]) == f then Base.Some(|opts| - 1)
    else LastWriter(opts[..|opts| - 1], f)
  }

  // Applying a list of options: every field holds what the last option
  // writing it stored, or its starting value when no option writes it.

  /** No option writes the endpoints. */
  lemma {:induction false} ApplyAllEndpoints(o: Options, opts: seq<Option>)
    ensures ApplyAll(o, opts).endpoints == o.endpoints
    decreases |opts|
  {
    if |opts| > 0 {
      ApplyAllEndpoints(o, opts[..|opts| - 1]);
    }
  }

  /** The prefix after the fold comes from the last option writing it. */
  lemma {:induction false} ApplyAllPrefix(o: Options, opts: seq<Option>)
    ensures ApplyAll(o, opts).prefix ==
      (match LastWriter(opts, Prefix) case None => o.prefix case Some(i) => opts[i].prefix)
    decreases |opts|
  {
    if |opts| > 0 {
      ApplyAllPrefix(o, opts[..|opts| - 1]);
    }
  }

  /** The leaseTTL after the fold comes from the last option writing it. */
  lemma {:induction false} ApplyAllLeaseTTL(o: Options, opts: seq<Option>)
    ensures ApplyAll(o, opts).leaseTTL ==
      (match LastWriter(opts, LeaseTTL) case None => o.leaseTTL case Some(i) => opts[i].ttl)
    decreases |opts|
  {
    if |opts| > 0 {
      ApplyAllLeaseTTL(o, opts[..|opts| - 1]);
    }
  }

  /** The dialTimeout after the fold comes from the last option writing it. */
  lemma {:induction false} ApplyAllDialTimeout(o: Options, opts: seq<Option>)
    ensures ApplyAll(o, opts).dialTimeout ==
      (match LastWriter(opts, DialTimeout) case None => o.dialTimeout case Some(i) => opts[i].timeout)
    decreases |opts|
  {
    if |opts| > 0 {
      ApplyAllDialTimeout(o, opts[..|opts| - 1]);
    }
  }

  /** The username after the fold comes from the last option writing it. */
  lemma {:induction false} ApplyAllUsername(o: Options, opts: seq<Option>)
    ensures ApplyAll(o, opts).username ==
      (match LastWriter(opts, Username) case None => o.username case Some(i) => opts[i].username)
    decreases |opts|
  {
    if |opts| > 0 {
      ApplyAllUsername(o, opts[..|opts| - 1]);
    }
  }

  /** The password after the fold comes from the last option writing it. */
  lemma {:induction false} ApplyAllPassword(o: Options, opts: seq<Option>)
    ensures ApplyAll(o, opts).password ==
      (match LastWriter(opts, Password) case None => o.password case Some(i) => opts[i].password)
    decreases |opts|
  {
    if |opts| > 0 {
      ApplyAllPassword(o, opts[..|opts| - 1]);
    }
  }

  /** Watching stays disabled after the fold unless it started enabled or
      some option writes the flag (WithEnableWatched, which clears it). */
  lemma {:induction false} ApplyAllDisableWatch(o: Options, opts: seq<Option>)
    ensures ApplyAll(o, opts).disableWatch == (o.disableWatch && LastWriter(opts, DisableWatch).None?)
    decreases |opts|
  {
    if |opts| > 0 {
      ApplyAllDisableWatch(o, opts[..|opts| - 1]);
    }
  }

  /** Options applied in two batches act like one list in order. */
  lemma {:induction false} ApplyAllAppend(o: Options, xs: seq<Option>, ys: seq<Option>)
    ensures ApplyAll(o, xs + ys) == ApplyAll(ApplyAll(o, xs), ys)
    decreases |ys|
  {
    if |ys| == 0 {
      assert xs + ys == xs;
    } else {
      assert (xs + ys)[..|xs + ys| - 1] == xs + ys[..|ys| - 1];
      ApplyAllAppend(o, xs, ys[..|ys| - 1]);
    }
  }

  /** Watching is enabled exactly when WithEnableWatched is among the
      discovery options; nothing else can enable it. */
  lemma WatchOnlyByEnable(endpoints: seq<string>, opts: seq<Option>)
    ensures !ApplyAll(DiscoveryDefaults(endpoints), opts).disableWatch <==>
      exists i :: 0 <= i < |opts| && opts[i] == WithEnableWatched
  {
    ApplyAllDisableWatch(DiscoveryDefaults(endpoints), opts);
    var w := LastWriter(opts, DisableWatch);
    if w.Some? {
      assert opts[w.value] == WithEnableWatched;
    } else {
      assert forall i :: 0 <= i < |opts| ==> opts[i] != WithEnableWatched;
    }
  }

  /** Without WithPrefix both constructors use "hestia/registry-etcd". */
  lemma PrefixDefault(endpoints: seq<string>, opts: seq<Option>)
    requires forall i :: 0 <= i < |opts| ==> !opts[i].WithPrefix?
    ensures ApplyAll(RegistryDefaults(endpoints), opts).prefix == DefaultPrefix
    ensures ApplyAll(DiscoveryDefaults(endpoints), opts).prefix == DefaultPrefix
  {
    assert forall i :: 0 <= i < |opts| ==> Writes(opts[i]) != Prefix;
    assert LastWriter(opts, Prefix).None?;
    ApplyAllPrefix(RegistryDefaults(endpoints), opts);
    ApplyAllPrefix(DiscoveryDefaults(endpoints), opts);
  }

  /** An option that does not write `f` keeps two records that agree
      outside `f` in agreement. */
  lemma ApplyKeepsAgreement(a: Options, b: Options, f: Field, opt: Option)
    requires AgreeExcept(a, b, f)
    ensures AgreeExcept(Apply(a, opt), Apply(b, opt), f)
  {
  }

  /** Slipping a WithLeaseTTL anywhere into a list of options changes no
      field but the lease TTL. */
  lemma {:induction false} LeaseTTLOnlyTouchesTTL(o: Options, xs: seq<Option>, ttl: int, ys: seq<Option>)
    ensures AgreeExcept(ApplyAll(o, xs + [WithLeaseTTL(ttl)] + ys), ApplyAll(o, xs + ys), LeaseTTL)
    decreases |ys|
  {
    if |ys| == 0 {
      assert xs + [WithLeaseTTL(ttl)] + ys == xs + [WithLeaseTTL(ttl)];
      assert (xs + [WithLeaseTTL(ttl)])[..|xs|] == xs;
      assert xs + ys == xs;
    } else {
      var init := ys[..|ys| - 1];
      LeaseTTLOnlyTouchesTTL(o, xs, ttl, init);
      assert (xs + [WithLeaseTTL(ttl)] + ys)[..|xs + [WithLeaseTTL(ttl)] + ys| - 1] == xs + [WithLeaseTTL(ttl)] + init;
      assert (xs + ys)[..|xs + ys| - 1] == xs + init;
      ApplyKeepsAgreement(ApplyAll(o, xs + [WithLeaseTTL(ttl)] + init), ApplyAll(o, xs + init), LeaseTTL, ys[|ys| - 1]);
    }
  }
}
