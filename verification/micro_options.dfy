/** The micro service configuration record and its functional options.
    Interceptors, server, dial and mux options, functions, handlers and
    annotators are opaque tokens: only which ones are installed, and in
    which order, is modelled. */
module MicroConfig {
  import Base

  /** An opaque caller-supplied value (a function, an option, a handler). */
  type Token = nat

  /** A function value: the package default or one the caller passed. */
  datatype Func = DefaultFunc | UserFunc(id: Token)

  /** A unary or stream server interceptor. */
  datatype Interceptor = RecoveryInterceptor | ValidatorInterceptor | RequestAccessInterceptor
                       | PrometheusInterceptor | UserInterceptor(id: Token)

  /** A gRPC server option; NewService adds the two chain options. */
  datatype ServerOption = ChainStream(stream: seq<Interceptor>) | ChainUnary(unary: seq<Interceptor>)
                        | UserServerOption(id: Token)

  /** A gRPC dial option for the gateway's connection to the server. */
  datatype DialOption = InsecureCredentials | UserDialOption(id: Token)

  /** A gateway ServeMux option. */
  datatype MuxOption = DefaultMarshaler | WithErrorHandler(handler: Func) | WithMetadata(annotator: Token)
                     | UserMuxOption(id: Token)

  /** An os.Signal. */
  datatype Signal = SIGINT | SIGTERM | Interrupt | SIGHUP | SIGSTOP | SIGQUIT | OtherSignal(id: Token)

  /** The signals caught by default (micro's interruptSignals; os.Interrupt
      is listed besides SIGINT). */
  const DefaultSignals: seq<Signal> := [SIGINT, SIGTERM, Interrupt, SIGHUP, SIGSTOP, SIGQUIT]

  /** micro.Route: an extra HTTP route for the gateway mux. */
  datatype Route = Route(httpMethod: string, path: string, handler: Token)

  /** The gateway's *http.Server: the default one NewService or Run
      creates, or one the caller passed. */
  datatype HTTPServer = DefaultHTTPServer | UserHTTPServer(id: Token)

  /** One second as a time.Duration (nanoseconds). */
  const Second: int := 1_000_000_000

  /** micro.Service before NewService derives the server and the mux; nil
      pointers and functions are None. */
  datatype Service = Service(
    gRPCAddress: string,
    gRPCNetwork: string,
    recovery: Func,
    shutdownFunc: Func,
    shutdownTimeout: int,
    interruptSignals: seq<Signal>,
    streamInterceptors: seq<Interceptor>,
    unaryInterceptors: seq<Interceptor>,
    serverOptions: seq<ServerOption>,
    enableRequestAccess: bool,
    enableRequestValidator: bool,
    enablePrometheus: bool,
    serverMetricsOptions: seq<Token>,
    logger: Func,
    enableHTTPGateway: bool,
    handlerFromEndpoints: seq<Token>,
    muxOptions: seq<MuxOption>,
    gRPCEndpointDialOptions: seq<DialOption>,
    routes: seq<Route>,
    gRPCHTTPServer: Base.Option<HTTPServer>,
    gRPCHTTPAddress: string,
    gRPCHTTPHandler: Base.Option<Func>,
    gRPCHTTPErrorHandler: Base.Option<Func>,
    enableGRPCShareAddress: bool,
    annotators: seq<Token>)

  /** defaultService with the gRPC address set: network "tcp", a 5 s
      shutdown timeout, the default signals, and the recovery interceptor
      first in both chains. */
  function DefaultService(address: string): (s: Service)
    ensures s.gRPCAddress == address && s.gRPCNetwork == "tcp" && s.shutdownTimeout == 5 * Second
    ensures s.interruptSignals == DefaultSignals
    ensures s.unaryInterceptors == [RecoveryInterceptor] && s.streamInterceptors == [RecoveryInterceptor]
    ensures s.gRPCHTTPAddress == "" && s.gRPCHTTPServer.None? && s.gRPCHTTPHandler.None? && s.gRPCHTTPErrorHandler.None?
    ensures !s.enableHTTPGateway && !s.enableGRPCShareAddress && !s.enableRequestAccess
    ensures !s.enableRequestValidator && !s.enablePrometheus
    ensures s.annotators == [] && s.muxOptions == [] && s.gRPCEndpointDialOptions == [] && s.routes == []
  {
    Service(address, "tcp", DefaultFunc, DefaultFunc, 5 * Second, DefaultSignals,
            [RecoveryInterceptor], [RecoveryInterceptor], [], false, false, false, [], DefaultFunc,
            false, [], [], [], [], Base.None, "", Base.None, Base.None, false, [])
  }

  /** micro.Option, one constructor per With* function. */
  datatype Option =
    | WithRecovery(f: Func)
    | WithUnaryInterceptor(unary: seq<Interceptor>)
    | WithStreamInterceptor(stream: seq<Interceptor>)
    | WithShutdownFunc(shutdown: Func)
    | WithShutdownTimeout(timeout: int)
    | WithInterruptSignals(signals: seq<Signal>)
    | WithGRPCServerOption(serverOpts: seq<ServerOption>)
    | WithLogger(logger: Func)
    | WithEnableRequestAccess
    | WithEnablePrometheus
    | WithServerMetricsOptions(metricsOpts: seq<Token>)
    | WithEnableRequestValidator
    | WithGRPCNetwork(network: string)
    | WithHandlerFromEndpoints(handlers: seq<Token>)
    | WithEnableHTTPGateway
    | WithMuxOption(muxOpts: seq<MuxOption>)
    | WithRoutes(routes: seq<Route>)
    | WithGRPCEndpointDialOptions(dialOpts: seq<DialOption>)
    | WithGRPCHTTPServer(server: Base.Option<HTTPServer>)
    | WithGRPCHTTPAddress(address: string)
    | WithGRPCHTTPHandler(handler: Base.Option<Func>)
    | WithGRPCHTTPErrorHandler(errorHandler: Base.Option<Func>)
    | WithEnableGRPCShareAddress

  /** The fields of Service. */
  datatype Field =
    GRPCAddress | GRPCNetwork | Recovery | ShutdownFunc | ShutdownTimeout | InterruptSignals | StreamInterceptors | UnaryInterceptors | ServerOptions | EnableRequestAccess | EnableRequestValidator | EnablePrometheus | ServerMetricsOptions | Logger | EnableHTTPGateway | HandlerFromEndpoints | MuxOptions | GRPCEndpointDialOptions | Routes | GRPCHTTPServer | GRPCHTTPAddress | GRPCHTTPHandler | GRPCHTTPErrorHandler | EnableGRPCShareAddress | Annotators

  /** The field each option writes. */
  function Writes(opt: Option): Field {
    match opt
    case WithRecovery(_) => Recovery
    case WithUnaryInterceptor(_) => UnaryInterceptors
    case WithStreamInterceptor(_) => StreamInterceptors
    case WithShutdownFunc(_) => ShutdownFunc
    case WithShutdownTimeout(_) => ShutdownTimeout
    case WithInterruptSignals(_) => InterruptSignals
    case WithGRPCServerOption(_) => ServerOptions
    case WithLogger(_) => Logger
    case WithEnableRequestAccess => EnableRequestAccess
    case WithEnablePrometheus => EnablePrometheus
    case WithServerMetricsOptions(_) => ServerMetricsOptions
    case WithEnableRequestValidator => EnableRequestValidator
    case WithGRPCNetwork(_) => GRPCNetwork
    case WithHandlerFromEndpoints(_) => HandlerFromEndpoints
    case WithEnableHTTPGateway => EnableHTTPGateway
    case WithMuxOption(_) => MuxOptions
    case WithRoutes(_) => Routes
    case WithGRPCEndpointDialOptions(_) => GRPCEndpointDialOptions
    case WithGRPCHTTPServer(_) => GRPCHTTPServer
    case WithGRPCHTTPAddress(_) => GRPCHTTPAddress
    case WithGRPCHTTPHandler(_) => GRPCHTTPHandler
    case WithGRPCHTTPErrorHandler(_) => GRPCHTTPErrorHandler
    case WithEnableGRPCShareAddress => EnableGRPCShareAddress
  }

  /** `a` and `b` hold the same value in field `f`. */
  predicate AgreeOn(a: Service, b: Service, f: Field) {
    match f
    case GRPCAddress => a.gRPCAddress == b.gRPCAddress
    case GRPCNetwork => a.gRPCNetwork == b.gRPCNetwork
    case Recovery => a.recovery == b.recovery
    case ShutdownFunc => a.shutdownFunc == b.shutdownFunc
    case ShutdownTimeout => a.shutdownTimeout == b.shutdownTimeout
    case InterruptSignals => a.interruptSignals == b.interruptSignals
    case StreamInterceptors => a.streamInterceptors == b.streamInterceptors
    case UnaryInterceptors => a.unaryInterceptors == b.unaryInterceptors
    case ServerOptions => a.serverOptions == b.serverOptions
    case EnableRequestAccess => a.enableRequestAccess == b.enableRequestAccess
    case EnableRequestValidator => a.enableRequestValidator == b.enableRequestValidator
    case EnablePrometheus => a.enablePrometheus == b.enablePrometheus
    case ServerMetricsOptions => a.serverMetricsOptions == b.serverMetricsOptions
    case Logger => a.logger == b.logger
    case EnableHTTPGateway => a.enableHTTPGateway == b.enableHTTPGateway
    case HandlerFromEndpoints => a.handlerFromEndpoints == b.handlerFromEndpoints
    case MuxOptions => a.muxOptions == b.muxOptions
    case GRPCEndpointDialOptions => a.gRPCEndpointDialOptions == b.gRPCEndpointDialOptions
    case Routes => a.routes == b.routes
    case GRPCHTTPServer => a.gRPCHTTPServer == b.gRPCHTTPServer
    case GRPCHTTPAddress => a.gRPCHTTPAddress == b.gRPCHTTPAddress
    case GRPCHTTPHandler => a.gRPCHTTPHandler == b.gRPCHTTPHandler
    case GRPCHTTPErrorHandler => a.gRPCHTTPErrorHandler == b.gRPCHTTPErrorHandler
    case EnableGRPCShareAddress => a.enableGRPCShareAddress == b.enableGRPCShareAddress
    case Annotators => a.annotators == b.annotators
  }

  /** Agreeing on a field is transitive. */
  lemma AgreeOnTrans(a: Service, b: Service, c: Service, f: Field)
    requires AgreeOn(a, b, f) && AgreeOn(b, c, f)
    ensures AgreeOn(a, c, f)
  {
  }

  /** Agreeing on a switch means the switch is on in both or in neither. */
  lemma AgreeOnSwitch(a: Service, b: Service, f: Field)
    requires IsSwitch(f) && AgreeOn(a, b, f)
    ensures SwitchOn(a, f) == SwitchOn(b, f)
  {
  }

  /** The fields an option appends to; the others it overwrites. */
  predicate IsListField(f: Field) {
    f == InterruptSignals || f == StreamInterceptors || f == UnaryInterceptors || f == ServerOptions || f == ServerMetricsOptions || f == HandlerFromEndpoints || f == MuxOptions || f == GRPCEndpointDialOptions || f == Routes
  }

  /** The boolean switches; every option writing one sets it to true. */
  predicate IsSwitch(f: Field) {
    f == EnableRequestAccess || f == EnableRequestValidator || f == EnablePrometheus || f == EnableHTTPGateway || f == EnableGRPCShareAddress
  }

  /** Whether switch `f` is on in `s`. */
  function SwitchOn(s: Service, f: Field): bool
    requires IsSwitch(f)
  {
    match f
    case EnableRequestAccess => s.enableRequestAccess
    case EnableRequestValidator => s.enableRequestValidator
    case EnablePrometheus => s.enablePrometheus
    case EnableHTTPGateway => s.enableHTTPGateway
    case EnableGRPCShareAddress => s.enableGRPCShareAddress
  }

  /** Running one option's closure on the service, written field by
      field: each field changes only under the one With* option that
      writes it. */
  function Apply(s: Service, opt: Option): Service
  {
    Service(
      s.gRPCAddress,
      if opt.WithGRPCNetwork? then opt.network else s.gRPCNetwork,
      if opt.WithRecovery? then opt.f else s.recovery,
      if opt.WithShutdownFunc? then opt.shutdown else s.shutdownFunc,
      if opt.WithShutdownTimeout? then opt.timeout else s.shutdownTimeout,
      if opt.WithInterruptSignals? then s.interruptSignals + opt.signals else s.interruptSignals,
      if opt.WithStreamInterceptor? then s.streamInterceptors + opt.stream else s.streamInterceptors,
      if opt.WithUnaryInterceptor? then s.unaryInterceptors + opt.unary else s.unaryInterceptors,
      if opt.WithGRPCServerOption? then s.serverOptions + opt.serverOpts else s.serverOptions,
      if opt.WithEnableRequestAccess? then true else s.enableRequestAccess,
      if opt.WithEnableRequestValidator? then true else s.enableRequestValidator,
      if opt.WithEnablePrometheus? then true else s.enablePrometheus,
      if opt.WithServerMetricsOptions? then s.serverMetricsOptions + opt.metricsOpts else s.serverMetricsOptions,
      if opt.WithLogger? then opt.logger else s.logger,
      if opt.WithEnableHTTPGateway? then true else s.enableHTTPGateway,
      if opt.WithHandlerFromEndpoints? then s.handlerFromEndpoints + opt.handlers else s.handlerFromEndpoints,
      if opt.WithMuxOption? then s.muxOptions + opt.muxOpts else s.muxOptions,
      if opt.WithGRPCEndpointDialOptions? then s.gRPCEndpointDialOptions + opt.dialOpts else s.gRPCEndpointDialOptions,
      if opt.WithRoutes? then s.routes + opt.routes else s.routes,
      if opt.WithGRPCHTTPServer? then opt.server else s.gRPCHTTPServer,
      if opt.WithGRPCHTTPAddress? then opt.address else s.gRPCHTTPAddress,
      if opt.WithGRPCHTTPHandler? then opt.handler else s.gRPCHTTPHandler,
      if opt.WithGRPCHTTPErrorHandler? then opt.errorHandler else s.gRPCHTTPErrorHandler,
      if opt.WithEnableGRPCShareAddress? then true else s.enableGRPCShareAddress,
      s.annotators)
  }

  /** The list options append their arguments after the entries already
      there. */
  lemma ApplyAppends(s: Service, opt: Option)
    ensures opt.WithUnaryInterceptor? ==> Apply(s, opt).unaryInterceptors == s.unaryInterceptors + opt.unary
    ensures opt.WithStreamInterceptor? ==> Apply(s, opt).streamInterceptors == s.streamInterceptors + opt.stream
    ensures opt.WithInterruptSignals? ==> Apply(s, opt).interruptSignals == s.interruptSignals + opt.signals
    ensures opt.WithGRPCServerOption? ==> Apply(s, opt).serverOptions == s.serverOptions + opt.serverOpts
    ensures opt.WithServerMetricsOptions? ==> Apply(s, opt).serverMetricsOptions == s.serverMetricsOptions + opt.metricsOpts
    ensures opt.WithHandlerFromEndpoints? ==> Apply(s, opt).handlerFromEndpoints == s.handlerFromEndpoints + opt.handlers
    ensures opt.WithMuxOption? ==> Apply(s, opt).muxOptions == s.muxOptions + opt.muxOpts
    ensures opt.WithRoutes? ==> Apply(s, opt).routes == s.routes + opt.routes
    ensures opt.WithGRPCEndpointDialOptions? ==> Apply(s, opt).gRPCEndpointDialOptions == s.gRPCEndpointDialOptions + opt.dialOpts
  {
  }

  /** The switches turn on, and the other options store their argument
      verbatim. */
  lemma ApplyStores(s: Service, opt: Option)
    ensures IsSwitch(Writes(opt)) ==> SwitchOn(Apply(s, opt), Writes(opt))
    ensures opt.WithRecovery? ==> Apply(s, opt).recovery == opt.f
    ensures opt.WithShutdownFunc? ==> Apply(s, opt).shutdownFunc == opt.shutdown
    ensures opt.WithShutdownTimeout? ==> Apply(s, opt).shutdownTimeout == opt.timeout
    ensures opt.WithLogger? ==> Apply(s, opt).logger == opt.logger
    ensures opt.WithGRPCNetwork? ==> Apply(s, opt).gRPCNetwork == opt.network
    ensures opt.WithGRPCHTTPServer? ==> Apply(s, opt).gRPCHTTPServer == opt.server
    ensures opt.WithGRPCHTTPAddress? ==> Apply(s, opt).gRPCHTTPAddress == opt.address
    ensures opt.WithGRPCHTTPHandler? ==> Apply(s, opt).gRPCHTTPHandler == opt.handler
    ensures opt.WithGRPCHTTPErrorHandler? ==> Apply(s, opt).gRPCHTTPErrorHandler == opt.errorHandler
  {
  }

  /** Each option leaves every field but its own alone. */
  lemma ApplyWritesOneField(s: Service, opt: Option, f: Field)
    requires f != Writes(opt)
    ensures AgreeOn(s, Apply(s, opt), f)
  {
  }

  /** An option that overwrites its field stores the same value whatever
      the field held before. */
  lemma ApplyOverwrites(a: Service, b: Service, opt: Option)
    requires !IsListField(Writes(opt))
    ensures AgreeOn(Apply(a, opt), Apply(b, opt), Writes(opt))
  {
  }

  /** `for _, o := range opts { o(s) }`. */
  function ApplyAll(s: Service, opts: seq<Option>): Service
    decreases |opts|
  {
    if |opts| == 0 then s else Apply(ApplyAll(s, opts[..|opts| - 1]), opts[|opts| - 1])
  }

  /** The position of the last option that writes `f`, if any. */
  function LastWriter(opts: seq<Option>, f: Field): (r: Base.Option<nat>)
    ensures r.Some? ==> (r.value < |opts| && Writes(opts[r.value]) == f
      && forall j :: r.value < j < |opts| ==> Writes(opts[j]) != f)
    ensures r.None? ==> forall j :: 0 <= j < |opts| ==> Writes(opts[j]) != f
    decreases |opts|
  {
    if |opts| == 0 then Base.None
    else if Writes(opts[|opts| - 1]) == f then Base.Some(|opts| - 1)
    else LastWriter(opts[..|opts| - 1], f)
  }

  /** A field no option writes keeps its starting value. */
  lemma {:induction false} ApplyAllUnwritten(s: Service, opts: seq<Option>, f: Field)
    requires LastWriter(opts, f).None?
    ensures AgreeOn(s, ApplyAll(s, opts), f)
    decreases |opts|
  {
    if |opts| > 0 {
      var init := opts[..|opts| - 1];
      assert LastWriter(init, f).None?;
      ApplyAllUnwritten(s, init, f);
      ApplyWritesOneField(ApplyAll(s, init), opts[|opts| - 1], f);
      AgreeOnTrans(s, ApplyAll(s, init), ApplyAll(s, opts), f);
    }
  }

  /** No option writes the gRPC address or the annotators. */
  lemma NoWriter(opts: seq<Option>)
    ensures LastWriter(opts, GRPCAddress).None? && LastWriter(opts, Annotators).None?
  {
  }

  /** Every option sequence keeps the gRPC address and the annotators. */
  lemma ApplyAllKeepsAddressAndAnnotators(s: Service, opts: seq<Option>)
    ensures ApplyAll(s, opts).gRPCAddress == s.gRPCAddress
    ensures ApplyAll(s, opts).annotators == s.annotators
  {
    NoWriter(opts);
    ApplyAllUnwritten(s, opts, GRPCAddress);
    ApplyAllUnwritten(s, opts, Annotators);
  }

  /** The options that overwrite a field (WithShutdownTimeout,
      WithGRPCHTTPAddress, WithLogger, WithGRPCNetwork, ...): the value
      after all options is the one the last of them stores. */
  lemma {:induction false} ApplyAllLastWins(s: Service, opts: seq<Option>, f: Field)
    requires !IsListField(f) && LastWriter(opts, f).Some?
    ensures AgreeOn(ApplyAll(s, opts), Apply(s, opts[LastWriter(opts, f).value]), f)
    decreases |opts|
  {
    var init := opts[..|opts| - 1];
    var last := opts[|opts| - 1];
    if Writes(last) != f {
      assert LastWriter(opts, f) == LastWriter(init, f);
      var k := LastWriter(init, f).value;
      assert opts[k] == init[k];
      ApplyAllLastWins(s, init, f);
      ApplyWritesOneField(ApplyAll(s, init), last, f);
      AgreeOnTrans(ApplyAll(s, opts), ApplyAll(s, init), Apply(s, opts[k]), f);
    } else {
      ApplyOverwrites(ApplyAll(s, init), s, last);
    }
  }

  /** A switch is on after the options exactly when it was on before or
      some option writes it: no option turns one off. */
  lemma {:induction false} ApplyAllSwitch(s: Service, opts: seq<Option>, f: Field)
    requires IsSwitch(f)
    ensures SwitchOn(ApplyAll(s, opts), f) <==> SwitchOn(s, f) || LastWriter(opts, f).Some?
    decreases |opts|
  {
    if |opts| > 0 {
      var init, last := opts[..|opts| - 1], opts[|opts| - 1];
      ApplyAllSwitch(s, init, f);
      if Writes(last) != f {
        assert LastWriter(opts, f) == LastWriter(init, f);
        ApplyWritesOneField(ApplyAll(s, init), last, f);
        AgreeOnSwitch(ApplyAll(s, init), ApplyAll(s, opts), f);
      } else {
        ApplyStores(ApplyAll(s, init), last);
      }
    }
  }

  /** The list arguments `sel` picks from each option, in option order. */
  function Args<T>(opts: seq<Option>, sel: Option -> seq<T>): seq<T>
    decreases |opts|
  {
    if |opts| == 0 then [] else Args(opts[..|opts| - 1], sel) + sel(opts[|opts| - 1])
  }

  /** When every option appends what `sel` picks from it to the list `get`
      reads, a run of options appends all their picks, in option order. */
  lemma {:induction false} ApplyAllAppends<T>(s: Service, opts: seq<Option>, get: Service -> seq<T>, sel: Option -> seq<T>)
    requires forall c: Service, o: Option :: get(Apply(c, o)) == get(c) + sel(o)
    ensures get(ApplyAll(s, opts)) == get(s) + Args(opts, sel)
    decreases |opts|
  {
    if |opts| > 0 {
      ApplyAllAppends(s, opts[..|opts| - 1], get, sel);
    }
  }

  /** The argument of a WithUnaryInterceptor; nothing for any other option. */
  function UnaryInterceptorOf(o: Option): seq<Interceptor>
  {
    if o.WithUnaryInterceptor? then o.unary else []
  }

  /** WithUnaryInterceptor appends: the final list is the starting one followed by the
      arguments of every WithUnaryInterceptor, in order. */
  lemma {:induction false} ApplyAllUnaryInterceptor(s: Service, opts: seq<Option>)
    ensures ApplyAll(s, opts).unaryInterceptors == s.unaryInterceptors + Args(opts, UnaryInterceptorOf)
  {
    forall c: Service, o: Option
      ensures Apply(c, o).unaryInterceptors == c.unaryInterceptors + UnaryInterceptorOf(o)
    {
      if Writes(o) != UnaryInterceptors {
        ApplyWritesOneField(c, o, UnaryInterceptors);
      } else {
        ApplyAppends(c, o);
      }
    }
    ApplyAllAppends(s, opts, (c: Service) => c.unaryInterceptors, UnaryInterceptorOf);
  }

  /** The argument of a WithStreamInterceptor; nothing for any other option. */
  function StreamInterceptorOf(o: Option): seq<Interceptor>
  {
    if o.WithStreamInterceptor? then o.stream else []
  }

  /** WithStreamInterceptor appends: the final list is the starting one followed by the
      arguments of every WithStreamInterceptor, in order. */
  lemma {:induction false} ApplyAllStreamInterceptor(s: Service, opts: seq<Option>)
    ensures ApplyAll(s, opts).streamInterceptors == s.streamInterceptors + Args(opts, StreamInterceptorOf)
  {
    forall c: Service, o: Option
      ensures Apply(c, o).streamInterceptors == c.streamInterceptors + StreamInterceptorOf(o)
    {
      if Writes(o) != StreamInterceptors {
        ApplyWritesOneField(c, o, StreamInterceptors);
      } else {
        ApplyAppends(c, o);
      }
    }
    ApplyAllAppends(s, opts, (c: Service) => c.streamInterceptors, StreamInterceptorOf);
  }

  /** The argument of a WithInterruptSignals; nothing for any other option. */
  function InterruptSignalsOf(o: Option): seq<Signal>
  {
    if o.WithInterruptSignals? then o.signals else []
  }

  /** WithInterruptSignals appends: the final list is the starting one followed by the
      arguments of every WithInterruptSignals, in order. */
  lemma {:induction false} ApplyAllInterruptSignals(s: Service, opts: seq<Option>)
    ensures ApplyAll(s, opts).interruptSignals == s.interruptSignals + Args(opts, InterruptSignalsOf)
  {
    forall c: Service, o: Option
      ensures Apply(c, o).interruptSignals == c.interruptSignals + InterruptSignalsOf(o)
    {
      if Writes(o) != InterruptSignals {
        ApplyWritesOneField(c, o, InterruptSignals);
      } else {
        ApplyAppends(c, o);
      }
    }
    ApplyAllAppends(s, opts, (c: Service) => c.interruptSignals, InterruptSignalsOf);
  }

  /** The argument of a WithGRPCServerOption; nothing for any other option. */
  function GRPCServerOptionOf(o: Option): seq<ServerOption>
  {
    if o.WithGRPCServerOption? then o.serverOpts else []
  }

  /** WithGRPCServerOption appends: the final list is the starting one followed by the
      arguments of every WithGRPCServerOption, in order. */
  lemma {:induction false} ApplyAllGRPCServerOption(s: Service, opts: seq<Option>)
    ensures ApplyAll(s, opts).serverOptions == s.serverOptions + Args(opts, GRPCServerOptionOf)
  {
    forall c: Service, o: Option
      ensures Apply(c, o).serverOptions == c.serverOptions + GRPCServerOptionOf(o)
    {
      if Writes(o) != ServerOptions {
        ApplyWritesOneField(c, o, ServerOptions);
      } else {
        ApplyAppends(c, o);
      }
    }
    ApplyAllAppends(s, opts, (c: Service) => c.serverOptions, GRPCServerOptionOf);
  }

  /** The argument of a WithServerMetricsOptions; nothing for any other option. */
  function ServerMetricsOptionsOf(o: Option): seq<Token>
  {
    if o.WithServerMetricsOptions? then o.metricsOpts else []
  }

  /** WithServerMetricsOptions appends: the final list is the starting one followed by the
      arguments of every WithServerMetricsOptions, in order. */
  lemma {:induction false} ApplyAllServerMetricsOptions(s: Service, opts: seq<Option>)
    ensures ApplyAll(s, opts).serverMetricsOptions == s.serverMetricsOptions + Args(opts, ServerMetricsOptionsOf)
  {
    forall c: Service, o: Option
      ensures Apply(c, o).serverMetricsOptions == c.serverMetricsOptions + ServerMetricsOptionsOf(o)
    {
      if Writes(o) != ServerMetricsOptions {
        ApplyWritesOneField(c, o, ServerMetricsOptions);
      } else {
        ApplyAppends(c, o);
      }
    }
    ApplyAllAppends(s, opts, (c: Service) => c.serverMetricsOptions, ServerMetricsOptionsOf);
  }

  /** The argument of a WithHandlerFromEndpoints; nothing for any other option. */
  function HandlerFromEndpointsOf(o: Option): seq<Token>
  {
    if o.WithHandlerFromEndpoints? then o.handlers else []
  }

  /** WithHandlerFromEndpoints appends: the final list is the starting one followed by the
      arguments of every WithHandlerFromEndpoints, in order. */
  lemma {:induction false} ApplyAllHandlerFromEndpoints(s: Service, opts: seq<Option>)
    ensures ApplyAll(s, opts).handlerFromEndpoints == s.handlerFromEndpoints + Args(opts, HandlerFromEndpointsOf)
  {
    forall c: Service, o: Option
      ensures Apply(c, o).handlerFromEndpoints == c.handlerFromEndpoints + HandlerFromEndpointsOf(o)
    {
      if Writes(o) != HandlerFromEndpoints {
        ApplyWritesOneField(c, o, HandlerFromEndpoints);
      } else {
        ApplyAppends(c, o);
      }
    }
    ApplyAllAppends(s, opts, (c: Service) => c.handlerFromEndpoints, HandlerFromEndpointsOf);
  }

  /** The argument of a WithMuxOption; nothing for any other option. */
  function MuxOptionOf(o: Option): seq<MuxOption>
  {
    if o.WithMuxOption? then o.muxOpts else []
  }

  /** WithMuxOption appends: the final list is the starting one followed by the
      arguments of every WithMuxOption, in order. */
  lemma {:induction false} ApplyAllMuxOption(s: Service, opts: seq<Option>)
    ensures ApplyAll(s, opts).muxOptions == s.muxOptions + Args(opts, MuxOptionOf)
  {
    forall c: Service, o: Option
      ensures Apply(c, o).muxOptions == c.muxOptions + MuxOptionOf(o)
    {
      if Writes(o) != MuxOptions {
        ApplyWritesOneField(c, o, MuxOptions);
      } else {
        ApplyAppends(c, o);
      }
    }
    ApplyAllAppends(s, opts, (c: Service) => c.muxOptions, MuxOptionOf);
  }

  /** The argument of a WithRoutes; nothing for any other option. */
  function RoutesOf(o: Option): seq<Route>
  {
    if o.WithRoutes? then o.routes else []
  }

  /** WithRoutes appends: the final list is the starting one followed by the
      arguments of every WithRoutes, in order. */
  lemma {:induction false} ApplyAllRoutes(s: Service, opts: seq<Option>)
    ensures ApplyAll(s, opts).routes == s.routes + Args(opts, RoutesOf)
  {
    forall c: Service, o: Option
      ensures Apply(c, o).routes == c.routes + RoutesOf(o)
    {
      if Writes(o) != Routes {
        ApplyWritesOneField(c, o, Routes);
      } else {
        ApplyAppends(c, o);
      }
    }
    ApplyAllAppends(s, opts, (c: Service) => c.routes, RoutesOf);
  }

  /** The argument of a WithGRPCEndpointDialOptions; nothing for any other option. */
  function GRPCEndpointDialOptionsOf(o: Option): seq<DialOption>
  {
    if o.WithGRPCEndpointDialOptions? then o.dialOpts else []
  }

  /** WithGRPCEndpointDialOptions appends: the final list is the starting one followed by the
      arguments of every WithGRPCEndpointDialOptions, in order. */
  lemma {:induction false} ApplyAllGRPCEndpointDialOptions(s: Service, opts: seq<Option>)
    ensures ApplyAll(s, opts).gRPCEndpointDialOptions == s.gRPCEndpointDialOptions + Args(opts, GRPCEndpointDialOptionsOf)
  {
    forall c: Service, o: Option
      ensures Apply(c, o).gRPCEndpointDialOptions == c.gRPCEndpointDialOptions + GRPCEndpointDialOptionsOf(o)
    {
      if Writes(o) != GRPCEndpointDialOptions {
        ApplyWritesOneField(c, o, GRPCEndpointDialOptions);
      } else {
        ApplyAppends(c, o);
      }
    }
    ApplyAllAppends(s, opts, (c: Service) => c.gRPCEndpointDialOptions, GRPCEndpointDialOptionsOf);
  }

}
