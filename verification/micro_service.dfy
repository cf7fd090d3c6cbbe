/** micro.NewService and what follows from the configuration it derives:
    the interceptor chains, the gateway and share-address switches, the
    gateway defaults, Run's choice of servers with its address guards, the
    route and endpoint registration, the request interceptor and the
    gRPC-or-HTTP routing predicate. Listening, serving, signals and
    shutdown are not modelled. */
module MicroService {
  import Base
  import opened Text
  import opened MicroConfig
  import MicroUtils
  import GUtils

  // ---------------------------------------------------------------------
  // NewService

  /** The interceptors NewService installs after the options: the
      validator (both chains), request access (unary only) and prometheus
      (both chains), each only when switched on, in that order; then the
      two chain options are appended to the server options. */
  function InstallInterceptors(s: Service): (r: Service)
    ensures r.unaryInterceptors == s.unaryInterceptors
      + (if s.enableRequestValidator then [ValidatorInterceptor] else [])
      + (if s.enableRequestAccess then [RequestAccessInterceptor] else [])
      + (if s.enablePrometheus then [PrometheusInterceptor] else [])
    ensures r.streamInterceptors == s.streamInterceptors
      + (if s.enableRequestValidator then [ValidatorInterceptor] else [])
      + (if s.enablePrometheus then [PrometheusInterceptor] else [])
    ensures r.serverOptions == s.serverOptions + [ChainStream(r.streamInterceptors), ChainUnary(r.unaryInterceptors)]
    ensures r == s.(unaryInterceptors := r.unaryInterceptors, streamInterceptors := r.streamInterceptors,
                    serverOptions := r.serverOptions)
  {
    var s1 := if s.enableRequestValidator then
      s.(streamInterceptors := s.streamInterceptors + [ValidatorInterceptor],
         unaryInterceptors := s.unaryInterceptors + [ValidatorInterceptor])
      else s;
    var s2 := if s1.enableRequestAccess then s1.(unaryInterceptors := s1.unaryInterceptors + [RequestAccessInterceptor]) else s1;
    var s3 := if s2.enablePrometheus then
      s2.(streamInterceptors := s2.streamInterceptors + [PrometheusInterceptor],
          unaryInterceptors := s2.unaryInterceptors + [PrometheusInterceptor])
      else s2;
    s3.(serverOptions := s3.serverOptions + [ChainStream(s3.streamInterceptors), ChainUnary(s3.unaryInterceptors)])
  }

  /** The gateway and share-address switches as written: a non-empty HTTP
      address always turns share mode off and the gateway on (the
      assignment for equal addresses is overwritten at once); share mode
      then uses the gRPC address for HTTP, turns the gateway on and
      defaults the HTTP server. */
  function DeriveModes(s: Service): (r: Service)
    ensures s.gRPCHTTPAddress != "" ==> (!r.enableGRPCShareAddress && r.enableHTTPGateway
      && r.gRPCHTTPAddress == s.gRPCHTTPAddress)
    ensures s.gRPCHTTPAddress == "" ==> r.enableGRPCShareAddress == s.enableGRPCShareAddress
    ensures r.enableGRPCShareAddress ==> (r.gRPCHTTPAddress == r.gRPCAddress && r.enableHTTPGateway
      && r.gRPCHTTPServer == (if s.gRPCHTTPServer.None? then Base.Some(DefaultHTTPServer) else s.gRPCHTTPServer))
    ensures !r.enableGRPCShareAddress ==> (r.gRPCHTTPAddress == s.gRPCHTTPAddress && r.gRPCHTTPServer == s.gRPCHTTPServer)
    ensures r.enableHTTPGateway <==> (s.enableHTTPGateway || s.gRPCHTTPAddress != "" || s.enableGRPCShareAddress)
    ensures r == s.(enableGRPCShareAddress := r.enableGRPCShareAddress, enableHTTPGateway := r.enableHTTPGateway,
                    gRPCHTTPAddress := r.gRPCHTTPAddress, gRPCHTTPServer := r.gRPCHTTPServer)
  {
    var s1 := if s.gRPCHTTPAddress != "" then
      var t := if s.gRPCAddress == s.gRPCHTTPAddress then s.(enableGRPCShareAddress := true) else s;
      t.(enableGRPCShareAddress := false, enableHTTPGateway := true)
      else s;
    if s1.enableGRPCShareAddress then
      s1.(gRPCHTTPAddress := s1.gRPCAddress, enableHTTPGateway := true,
          gRPCHTTPServer := if s1.gRPCHTTPServer.None? then Base.Some(DefaultHTTPServer) else s1.gRPCHTTPServer)
    else s1
  }

  /** The switches as the comments describe them: equal gRPC and HTTP
      addresses mean share mode, different ones two servers. */
  function DeriveModesIntended(s: Service): (r: Service)
    ensures s.gRPCHTTPAddress != "" ==> (r.enableGRPCShareAddress <==> s.gRPCAddress == s.gRPCHTTPAddress)
    ensures s.gRPCHTTPAddress != "" ==> r.enableHTTPGateway
    ensures s.gRPCHTTPAddress == "" ==> r.enableGRPCShareAddress == s.enableGRPCShareAddress
    ensures r.enableGRPCShareAddress ==> (r.gRPCHTTPAddress == r.gRPCAddress && r.enableHTTPGateway
      && r.gRPCHTTPServer.Some?)
    ensures !r.enableGRPCShareAddress ==> r.gRPCHTTPAddress == s.gRPCHTTPAddress
    ensures r == s.(enableGRPCShareAddress := r.enableGRPCShareAddress, enableHTTPGateway := r.enableHTTPGateway,
                    gRPCHTTPAddress := r.gRPCHTTPAddress, gRPCHTTPServer := r.gRPCHTTPServer)
  {
    var s1 := if s.gRPCHTTPAddress != "" then
      s.(enableGRPCShareAddress := s.gRPCAddress == s.gRPCHTTPAddress, enableHTTPGateway := true)
      else s;
    if s1.enableGRPCShareAddress then
      s1.(gRPCHTTPAddress := s1.gRPCAddress, enableHTTPGateway := true,
          gRPCHTTPServer := if s1.gRPCHTTPServer.None? then Base.Some(DefaultHTTPServer) else s1.gRPCHTTPServer)
    else s1
  }

  /** The gateway defaults, applied only when the gateway is on: the
      insecure dial option when none was given, the default error handler
      when none was given, the mux options (the caller's, the default
      marshaler, the error handler, one per annotator) and the default
      HTTP handler when none was given. */
  function GatewayDefaults(s: Service): (r: Service)
    ensures !s.enableHTTPGateway ==> r == s
    ensures s.enableHTTPGateway ==>
      (&& r.gRPCEndpointDialOptions == (if s.gRPCEndpointDialOptions == [] then [InsecureCredentials] else s.gRPCEndpointDialOptions)
       && r.gRPCHTTPErrorHandler == (if s.gRPCHTTPErrorHandler.None? then Base.Some(DefaultFunc) else s.gRPCHTTPErrorHandler)
       && r.muxOptions == s.muxOptions + [DefaultMarshaler, WithErrorHandler(r.gRPCHTTPErrorHandler.value)]
            + AnnotatorOptions(s.annotators)
       && r.gRPCHTTPHandler == (if s.gRPCHTTPHandler.None? then Base.Some(DefaultFunc) else s.gRPCHTTPHandler))
    ensures r == s.(gRPCEndpointDialOptions := r.gRPCEndpointDialOptions, gRPCHTTPErrorHandler := r.gRPCHTTPErrorHandler,
                    muxOptions := r.muxOptions, gRPCHTTPHandler := r.gRPCHTTPHandler)
  {
    if !s.enableHTTPGateway then s
    else
      var dial := if |s.gRPCEndpointDialOptions| == 0 then s.gRPCEndpointDialOptions + [InsecureCredentials] else s.gRPCEndpointDialOptions;
      var handler := if s.gRPCHTTPErrorHandler.None? then Base.Some(DefaultFunc) else s.gRPCHTTPErrorHandler;
      var mux := s.muxOptions + [DefaultMarshaler, WithErrorHandler(handler.value)] + AnnotatorOptions(s.annotators);
      s.(gRPCEndpointDialOptions := dial, gRPCHTTPErrorHandler := handler, muxOptions := mux,
         gRPCHTTPHandler := if s.gRPCHTTPHandler.None? then Base.Some(DefaultFunc) else s.gRPCHTTPHandler)
  }

  /** One gRuntime.WithMetadata option per annotator, in order. */
  function AnnotatorOptions(annotators: seq<Token>): (r: seq<MuxOption>)
    ensures |r| == |annotators| && forall i :: 0 <= i < |r| ==> r[i] == WithMetadata(annotators[i])
  {
    if |annotators| == 0 then [] else [WithMetadata(annotators[0])] + AnnotatorOptions(annotators[1..])
  }

  /** A configured service: the record, the options the gRPC server was
      built with, and the gateway mux's options when a mux was built. */
  datatype Built = Built(s: Service, grpcServer: seq<ServerOption>, mux: Base.Option<seq<MuxOption>>)

  /** The last derivation steps shared by both versions of NewService. */
  function Finish(s: Service): (b: Built)
    ensures b.s == GatewayDefaults(s)
    ensures b.grpcServer == s.serverOptions
    ensures b.mux.Some? <==> s.enableHTTPGateway
    ensures b.mux.Some? ==> b.mux.value == b.s.muxOptions
  {
    var g := GatewayDefaults(s);
    Built(g, s.serverOptions, if g.enableHTTPGateway then Base.Some(g.muxOptions) else Base.None)
  }

  /** NewService as written. */
  function NewService(address: string, opts: seq<Option>): (b: Built)
  {
    Finish(DeriveModes(InstallInterceptors(ApplyAll(DefaultService(address), opts))))
  }

  /** NewService with the intended share-address rule. */
  function NewServiceIntended(address: string, opts: seq<Option>): (b: Built)
  {
    Finish(DeriveModesIntended(InstallInterceptors(ApplyAll(DefaultService(address), opts))))
  }

  /** The unary chain: recovery, the interceptors of the options in order,
      then validator, request access and prometheus when switched on. */
  lemma NewServiceUnaryChain(address: string, opts: seq<Option>)
    ensures var c := ApplyAll(DefaultService(address), opts);
      NewService(address, opts).s.unaryInterceptors ==
        [RecoveryInterceptor] + Args(opts, UnaryInterceptorOf)
        + (if c.enableRequestValidator then [ValidatorInterceptor] else [])
        + (if c.enableRequestAccess then [RequestAccessInterceptor] else [])
        + (if c.enablePrometheus then [PrometheusInterceptor] else [])
    ensures NewService(address, opts).grpcServer ==
      Args(opts, GRPCServerOptionOf)
      + [ChainStream(NewService(address, opts).s.streamInterceptors), ChainUnary(NewService(address, opts).s.unaryInterceptors)]
  {
    var c := ApplyAll(DefaultService(address), opts);
    ApplyAllUnaryInterceptor(DefaultService(address), opts);
    ApplyAllGRPCServerOption(DefaultService(address), opts);
    var i := InstallInterceptors(c);
    var d := DeriveModes(i);
    var b := Finish(d);
    assert b.s.unaryInterceptors == d.unaryInterceptors == i.unaryInterceptors;
    assert b.s.streamInterceptors == d.streamInterceptors == i.streamInterceptors;
    assert b.grpcServer == d.serverOptions == i.serverOptions;
  }

  /** The stream chain: recovery, the options' stream interceptors, then
      validator and prometheus when switched on. */
  lemma NewServiceStreamChain(address: string, opts: seq<Option>)
    ensures var c := ApplyAll(DefaultService(address), opts);
      NewService(address, opts).s.streamInterceptors ==
        [RecoveryInterceptor] + Args(opts, StreamInterceptorOf)
        + (if c.enableRequestValidator then [ValidatorInterceptor] else [])
        + (if c.enablePrometheus then [PrometheusInterceptor] else [])
  {
    ApplyAllStreamInterceptor(DefaultService(address), opts);
  }

  /** No option sets annotators, so the gateway's mux options are the
      caller's followed by the default marshaler and the error handler. */
  lemma NewServiceMuxOptions(address: string, opts: seq<Option>)
    requires NewService(address, opts).mux.Some?
    ensures NewService(address, opts).mux.value ==
      Args(opts, MuxOptionOf) + [DefaultMarshaler, WithErrorHandler(NewService(address, opts).s.gRPCHTTPErrorHandler.value)]
  {
    var c := ApplyAll(DefaultService(address), opts);
    ConfiguredMux(address, opts);
    var d := DeriveModes(InstallInterceptors(c));
    DerivationKeepsMux(c);
    FinishMux(d);
  }

  /** The options leave the annotators empty and collect the mux options. */
  lemma ConfiguredMux(address: string, opts: seq<Option>)
    ensures ApplyAll(DefaultService(address), opts).muxOptions == Args(opts, MuxOptionOf)
    ensures ApplyAll(DefaultService(address), opts).annotators == []
  {
    ApplyAllMuxOption(DefaultService(address), opts);
    ApplyAllKeepsAddressAndAnnotators(DefaultService(address), opts);
  }

  /** Installing interceptors and deriving the switches keep the mux
      options and the annotators. */
  lemma DerivationKeepsMux(c: Service)
    ensures DeriveModes(InstallInterceptors(c)).muxOptions == c.muxOptions
    ensures DeriveModes(InstallInterceptors(c)).annotators == c.annotators
  {
    var i := InstallInterceptors(c);
    assert i.muxOptions == c.muxOptions && i.annotators == c.annotators;
  }

  /** Without annotators the mux gets the service's options, the default
      marshaler and the error handler. */
  lemma FinishMux(d: Service)
    requires d.annotators == [] && d.enableHTTPGateway
    ensures Finish(d).mux == Base.Some(d.muxOptions + [DefaultMarshaler, WithErrorHandler(Finish(d).s.gRPCHTTPErrorHandler.value)])
  {
    var g := GatewayDefaults(d);
    var tail := [DefaultMarshaler, WithErrorHandler(g.gRPCHTTPErrorHandler.value)];
    assert AnnotatorOptions(d.annotators) == [];
    assert g.muxOptions == d.muxOptions + tail + [];
    assert d.muxOptions + tail + [] == d.muxOptions + tail;
  }

  // ---------------------------------------------------------------------
  // Run

  /** Which servers Run starts. */
  datatype RunMode = OneAddress | GRPCOnly | TwoServers

  /** Run's dispatch: share mode first, then gRPC alone when the gateway
      is off, otherwise two servers. */
  function Mode(s: Service): (m: RunMode)
    ensures m == OneAddress <==> s.enableGRPCShareAddress
    ensures m == GRPCOnly <==> (!s.enableGRPCShareAddress && !s.enableHTTPGateway)
  {
    if s.enableGRPCShareAddress then OneAddress
    else if !s.enableHTTPGateway then GRPCOnly
    else TwoServers
  }

  /** The network startGRPCServer listens on: "tcp" when none is set. */
  function ListenNetwork(network: string): (n: string)
    ensures n != "" && (network != "" ==> n == network)
    ensures network == "" ==> n == "tcp"
  {
    if network == "" then "tcp" else network
  }

  /** The path handed to the mux: a leading "/" is added when missing. */
  function NormalizePath(path: string): (r: string)
    ensures HasPrefix(r, "/")
    ensures HasPrefix(path, "/") ==> r == path
    ensures !HasPrefix(path, "/") ==> r == "/" + path
  {
    if HasPrefix(path, "/") then path else "/" + path
  }

  /** Normalising twice is normalising once. */
  lemma NormalizePathIdempotent(path: string)
    ensures NormalizePath(NormalizePath(path)) == NormalizePath(path)
  {
  }

  /** appRoutes: registers every route with a normalised path, stopping at
      the first registration error, which is returned with its position.
      `handlePath` is the mux's HandlePath result for a method and path. */
  function AppRoutes(routes: seq<Route>, handlePath: (string, string) -> Base.Option<string>): (r: Base.Result<seq<Route>, (nat, string)>)
    ensures r.Success? ==> (|r.value| == |routes|
      && forall i :: 0 <= i < |routes| ==>
           r.value[i] == routes[i].(path := NormalizePath(routes[i].path))
           && handlePath(routes[i].httpMethod, NormalizePath(routes[i].path)).None?)
    ensures r.Failure? ==> (r.error.0 < |routes|
      && handlePath(routes[r.error.0].httpMethod, NormalizePath(routes[r.error.0].path)) == Base.Some(r.error.1)
      && forall i :: 0 <= i < r.error.0 ==> handlePath(routes[i].httpMethod, NormalizePath(routes[i].path)).None?)
    decreases |routes|
  {
    if |routes| == 0 then Base.Success([])
    else
      var route := routes[0].(path := NormalizePath(routes[0].path));
      match handlePath(route.httpMethod, route.path)
      case Some(e) => Base.Failure((0, e))
      case None =>
        match AppRoutes(routes[1..], handlePath)
        case Success(rest) => Base.Success([route] + rest)
        case Failure((i, e)) => Base.Failure((i + 1, e))
  }

  /** Registering the endpoint handlers against the gRPC address, stopping
      at the first error. `call` is each handler's result. */
  function RegisterEndpoints(handlers: seq<Token>, endpoint: string, call: (Token, string) -> Base.Option<string>): (r: Base.Option<(nat, string)>)
    ensures r.None? <==> forall i :: 0 <= i < |handlers| ==> call(handlers[i], endpoint).None?
    ensures r.Some? ==> (r.value.0 < |handlers| && call(handlers[r.value.0], endpoint) == Base.Some(r.value.1)
      && forall i :: 0 <= i < r.value.0 ==> call(handlers[i], endpoint).None?)
    decreases |handlers|
  {
    if |handlers| == 0 then Base.None
    else
      match call(handlers[0], endpoint)
      case Some(e) => Base.Some((0, e))
      case None =>
        match RegisterEndpoints(handlers[1..], endpoint, call)
        case None => Base.None
        case Some((i, e)) => Base.Some((i + 1, e))
  }

  /** Why Run stops before serving. */
  datatype StartError =
    | SameAddresses
    | GRPCAddressRequired
    | EndpointFailed(endpointIndex: nat, endpointErr: string)
    | RouteFailed(routeIndex: nat, routeErr: string)

  /** What Run would listen on: the mode, the gRPC listener (network and
      address) when there is a separate one, the HTTP address when there
      is an HTTP server, and the routes registered on the mux. */
  datatype Listening = Listening(mode: RunMode, grpcListener: Base.Option<(string, string)>,
                                 httpAddress: Base.Option<string>, routes: seq<Route>)

  /** The gateway's start: endpoint handlers, then the routes. */
  function StartGateway(s: Service, call: (Token, string) -> Base.Option<string>,
                        handlePath: (string, string) -> Base.Option<string>): (r: Base.Result<seq<Route>, StartError>)
    ensures r.Failure? ==> r.error.EndpointFailed? || r.error.RouteFailed?
    ensures RegisterEndpoints(s.handlerFromEndpoints, s.gRPCAddress, call).Some? ==> r.Failure? && r.error.EndpointFailed?
  {
    match RegisterEndpoints(s.handlerFromEndpoints, s.gRPCAddress, call)
    case Some((i, e)) => Base.Failure(EndpointFailed(i, e))
    case None =>
      match AppRoutes(s.routes, handlePath)
      case Failure((i, e)) => Base.Failure(RouteFailed(i, e))
      case Success(routes) => Base.Success(routes)
  }

  /** Run up to the point of listening. One address: refused when the gRPC
      address is empty, otherwise the gateway is set up and HTTP is served
      on the gRPC address. gRPC alone: listens on the network ("tcp" when
      unset) and address. Two servers: refused when the addresses are
      equal, otherwise the gateway is set up beside the gRPC listener. */
  function Run(b: Built, call: (Token, string) -> Base.Option<string>,
               handlePath: (string, string) -> Base.Option<string>): (r: Base.Result<Listening, StartError>)
    ensures r.Success? ==> r.value.mode == Mode(b.s)
    ensures Mode(b.s) == OneAddress && b.s.gRPCAddress == "" ==> r == Base.Failure(GRPCAddressRequired)
    ensures Mode(b.s) == TwoServers && b.s.gRPCHTTPAddress == b.s.gRPCAddress ==> r == Base.Failure(SameAddresses)
    ensures Mode(b.s) == GRPCOnly ==>
      r == Base.Success(Listening(GRPCOnly, Base.Some((ListenNetwork(b.s.gRPCNetwork), b.s.gRPCAddress)), Base.None, []))
    ensures r.Success? && r.value.mode == OneAddress ==>
      (r.value.grpcListener.None? && r.value.httpAddress == Base.Some(b.s.gRPCAddress) && b.s.gRPCAddress != "")
    ensures r.Success? && r.value.mode == TwoServers ==>
      (r.value.httpAddress == Base.Some(b.s.gRPCHTTPAddress) && b.s.gRPCHTTPAddress != b.s.gRPCAddress
       && r.value.grpcListener == Base.Some((ListenNetwork(b.s.gRPCNetwork), b.s.gRPCAddress)))
    ensures r.Success? && r.value.mode != GRPCOnly ==> StartGateway(b.s, call, handlePath) == Base.Success(r.value.routes)
    ensures r == Base.Failure(SameAddresses) ==> Mode(b.s) == TwoServers
    ensures Mode(b.s) == OneAddress && b.s.gRPCAddress != "" ==>
      (&& (r.Success? <==> StartGateway(b.s, call, handlePath).Success?)
       && (r.Failure? ==> r.error == StartGateway(b.s, call, handlePath).error))
    ensures Mode(b.s) == TwoServers && b.s.gRPCHTTPAddress != b.s.gRPCAddress ==>
      (&& (r.Success? <==> StartGateway(b.s, call, handlePath).Success?)
       && (r.Failure? ==> r.error == StartGateway(b.s, call, handlePath).error))
  {
    match Mode(b.s)
    case OneAddress =>
      if b.s.gRPCAddress == "" then Base.Failure(GRPCAddressRequired)
      else
        (match StartGateway(b.s, call, handlePath)
         case Failure(e) => Base.Failure(e)
         case Success(routes) => Base.Success(Listening(OneAddress, Base.None, Base.Some(b.s.gRPCAddress), routes)))
    case GRPCOnly =>
      Base.Success(Listening(GRPCOnly, Base.Some((ListenNetwork(b.s.gRPCNetwork), b.s.gRPCAddress)), Base.None, []))
    case TwoServers =>
      if b.s.gRPCHTTPAddress == b.s.gRPCAddress then Base.Failure(SameAddresses)
      else
        match StartGateway(b.s, call, handlePath)
        case Failure(e) => Base.Failure(e)
        case Success(routes) =>
          Base.Success(Listening(TwoServers, Base.Some((ListenNetwork(b.s.gRPCNetwork), b.s.gRPCAddress)),
                                 Base.Some(b.s.gRPCHTTPAddress), routes))
  }

  // ---------------------------------------------------------------------
  // The share-address rule

  /** A non-empty HTTP address forces share mode off, even when it equals
      the gRPC address and share mode was asked for. */
  lemma HTTPAddressDisablesShare(address: string, opts: seq<Option>)
    requires ApplyAll(DefaultService(address), opts).gRPCHTTPAddress != ""
    ensures !NewService(address, opts).s.enableGRPCShareAddress && NewService(address, opts).s.enableHTTPGateway
    ensures Mode(NewService(address, opts).s) == TwoServers
  {
  }

  /** So a service configured with its gRPC address as HTTP address never
      starts: Run reports the addresses as equal. */
  lemma SameAddressNeverStarts(address: string, call: (Token, string) -> Base.Option<string>,
                               handlePath: (string, string) -> Base.Option<string>)
    requires address != ""
    ensures Run(NewService(address, [WithGRPCHTTPAddress(address)]), call, handlePath) == Base.Failure(SameAddresses)
  {
    var opts := [WithGRPCHTTPAddress(address)];
    assert opts[..0] == [];
    assert ApplyAll(DefaultService(address), opts).gRPCHTTPAddress == address;
  }

  /** With the intended rule equal addresses select the single-port mode
      and Run never reports them as equal. */
  lemma IntendedSameAddressShares(address: string, opts: seq<Option>,
                                  call: (Token, string) -> Base.Option<string>,
                                  handlePath: (string, string) -> Base.Option<string>)
    requires ApplyAll(DefaultService(address), opts).gRPCHTTPAddress == address && address != ""
    ensures Mode(NewServiceIntended(address, opts).s) == OneAddress
    ensures Run(NewServiceIntended(address, opts), call, handlePath) != Base.Failure(SameAddresses)
  {
    var c := ApplyAll(DefaultService(address), opts);
    ApplyAllKeepsAddressAndAnnotators(DefaultService(address), opts);
    IntendedDerivationShares(c);
  }

  /** Equal non-empty addresses survive the interceptors and switch share
      mode on under the intended rule. */
  lemma IntendedDerivationShares(c: Service)
    requires c.gRPCHTTPAddress == c.gRPCAddress && c.gRPCAddress != ""
    ensures Finish(DeriveModesIntended(InstallInterceptors(c))).s.enableGRPCShareAddress
  {
    var i := InstallInterceptors(c);
    assert i.gRPCHTTPAddress == c.gRPCHTTPAddress && i.gRPCAddress == c.gRPCAddress;
    var d := DeriveModesIntended(i);
    assert d.enableGRPCShareAddress;
    assert GatewayDefaults(d).enableGRPCShareAddress == d.enableGRPCShareAddress;
  }

  // ---------------------------------------------------------------------
  // requestInterceptor

  /** Incoming gRPC metadata: lower-case keys to their values. */
  type Metadata = map<string, seq<string>>

  /** The first value under `key`, or "" (GetStringFromMD). */
  function MDGet(md: Metadata, key: string): string {
    if key in md && |md[key]| > 0 then md[key][0] else ""
  }

  /** md.Set: the key is lower-cased and then holds exactly `value`. */
  function MDSet(md: Metadata, key: string, value: string): (r: Metadata)
    ensures ToLower(key) in r && r[ToLower(key)] == [value]
    ensures forall k :: k != ToLower(key) ==> (k in r <==> k in md) && (k in md ==> r[k] == md[k])
  {
    md[ToLower(key) := [value]]
  }

  /** A key without capital letters reads back what md.Set stored, and
      any other spelling of it in capitals stores under the same key. */
  lemma MDSetGet(md: Metadata, key: string, value: string)
    ensures (forall i :: 0 <= i < |key| ==> !IsUpper(key[i])) ==> MDGet(MDSet(md, key, value), key) == value
    ensures MDGet(MDSet(md, key, value), ToLower(key)) == value
  {
    ToLowerKeeps(key);
  }

  /** The metadata keys the interceptor reads and writes. */
  const XRequestID: string := "x-request-id"
  const ClientIPKey: string := "client_ip"
  const RequestMethodKey: string := "request_method"

  /** The interceptor's keys are already lower case, so md.Set keeps them. */
  lemma InterceptorKeysLower()
    ensures ToLower(XRequestID) == XRequestID
    ensures ToLower(ClientIPKey) == ClientIPKey
    ensures ToLower(RequestMethodKey) == RequestMethodKey
  {
    ToLowerKeeps(XRequestID);
    ToLowerKeeps(ClientIPKey);
    ToLowerKeeps(RequestMethodKey);
  }

  /** What the wrapped handler does: return a reply or an error, or panic. */
  datatype HandlerOutcome = Returned(reply: Base.Option<Token>, err: Base.Option<string>) | Panicked

  /** The error the caller receives. */
  datatype CallError = HandlerFailed(message: string) | InternalServerError

  /** The interceptor's result: the metadata the handler ran with, the
      reply and the error. */
  datatype Intercepted = Intercepted(handlerMD: Metadata, reply: Base.Option<Token>, err: Base.Option<CallError>)

  /** requestInterceptor: a missing request ID is replaced by one from
      gutils.Uuid, drawn from `uuid`; the client IP (empty when it cannot be found) and the
      method are added to the metadata; a handler error returns a nil reply
      with the error; a panic becomes codes.Internal "server inner error". */
  function RequestInterceptor(md: Metadata, uuid: GUtils.UuidSource, peer: MicroUtils.PeerInfo, fullMethod: string,
                              handler: Metadata -> HandlerOutcome): (r: Intercepted)
    ensures MDGet(md, XRequestID) != "" ==> MDGet(r.handlerMD, XRequestID) == MDGet(md, XRequestID)
    ensures MDGet(md, XRequestID) == "" ==>
      (&& MDGet(r.handlerMD, XRequestID) == GUtils.Uuid(uuid.random, uuid.ns, uuid.draw, uuid.md5)
       && |MDGet(r.handlerMD, XRequestID)| == 32)
    ensures MDGet(r.handlerMD, XRequestID) != ""
    ensures forall k :: k != XRequestID && k != ClientIPKey && k != RequestMethodKey ==>
      (k in r.handlerMD <==> k in md) && (k in md ==> r.handlerMD[k] == md[k])
    ensures MDGet(r.handlerMD, RequestMethodKey) == fullMethod
    ensures MDGet(r.handlerMD, ClientIPKey) ==
      (match MicroUtils.GetGRPCClientIP(peer) case Success(ip) => ip case Failure(_) => "")
    ensures r.err.Some? ==> r.reply.None?
    ensures handler(r.handlerMD).Panicked? ==> r.err == Base.Some(InternalServerError)
    ensures handler(r.handlerMD).Returned? && handler(r.handlerMD).err.Some? ==>
      r.err == Base.Some(HandlerFailed(handler(r.handlerMD).err.value))
    ensures handler(r.handlerMD).Returned? && handler(r.handlerMD).err.None? ==>
      r.err.None? && r.reply == handler(r.handlerMD).reply
  {
    InterceptorKeysLower();
    var md1 := if MDGet(md, XRequestID) == "" then MDSet(md, XRequestID, GUtils.Uuid(uuid.random, uuid.ns, uuid.draw, uuid.md5)) else md;
    var clientIP := match MicroUtils.GetGRPCClientIP(peer) case Success(ip) => ip case Failure(_) => "";
    var md2 := MDSet(MDSet(md1, ClientIPKey, clientIP), RequestMethodKey, fullMethod);
    match handler(md2)
    case Panicked => Intercepted(md2, Base.None, Base.Some(InternalServerError))
    case Returned(reply, err) =>
      if err.Some? then Intercepted(md2, Base.None, Base.Some(HandlerFailed(err.value)))
      else Intercepted(md2, reply, Base.None)
  }

  // ---------------------------------------------------------------------
  // GRPCHandlerFunc

  /** A request on the shared port goes to the gRPC server exactly when it
      is HTTP/2 or later and its Content-Type contains "application/grpc";
      everything else goes to the HTTP mux. */
  predicate ServedByGRPC(protoMajor: int, contentType: string) {
    protoMajor >= 2 && Contains(contentType, "application/grpc")
  }

  /** HTTP/1 requests never reach gRPC; gRPC content subtypes do. */
  lemma ServedByGRPCExamples(contentType: string, suffix: string)
    ensures !ServedByGRPC(1, "application/grpc")
    ensures ServedByGRPC(2, "application/grpc" + suffix)
    ensures ServedByGRPC(2, contentType) <==> exists i :: OccursAt(contentType, "application/grpc", i)
  {
    assert OccursAt("application/grpc" + suffix, "application/grpc", 0);
  }
}
