# hephfx core in Dafny

This project models the core of hephfx, a Go toolkit for gRPC
microservices. The model covers these parts:

- **hestia** is service registration and discovery. It covers the
  `Service` record, the address helpers (`NetAddr`, `Resolve`,
  `LocalAddr`) and the etcd-backed registry and discovery with their
  functional options.
- **micro** is the gRPC service builder. It covers `NewService` with all
  of its `With*` options, `Run`'s choice of serving mode, the request
  interceptor, the route registration and the small helpers of
  `micro/gutils.go`.
- **gutils** has the ID helpers: MD5 hex, `RandInt64`, `RndUUIDMd5`,
  `RndUUID` and `Uuid`.
- **slogger** covers the logging options and `Init`.
- **validator_gen** is the code generator's reading of `validator.log`
  and its plan of which files to write.

Each Go package is a module, and a few modules are shared:

- `Base` holds `Option` and `Result`.
- `Text` holds the `strings` functions the code uses.
- `Decimal` holds `strconv.Atoi` and `FormatInt`, including whether Atoi rejects a text as ErrSyntax or ErrRange.
- `KvStore` holds the etcd key-value store as the registry and discovery
  see it.

The store is a strictly key-sorted list of entries plus a set of granted
leases. Every foreign call becomes a parameter carrying its outcome. That
covers the clock, the random source, the interface list, the etcd
replies, the hash function, the file system and the handlers. Each error
path can therefore be stated, including which changes happened before it.

Some behaviour of the code is easy to misread, and the model states it
as the code has it:

- `Resolve` treats only the hosts `""` and `"::"` as wildcards.
  `"0.0.0.0:8090"` is kept unchanged (`NetAddr.ResolveZeroHostExample`).
- The default key prefix is `"hestia/registry-etcd"`.
- A second `Deregister` closes an already closed channel and panics
  (`EtcdRegistry.DeregisterTwicePanics`).
  `EtcdRegistry.DeregisterChecked` is the variant that does not.
- `net.SplitHostPort` follows Go's rules for brackets, "too many colons"
  and misplaced brackets. It is not a plain split at the last colon.
- A stored record is decoded as `json.Unmarshal` decodes it into a fresh
  `Service`. A JSON `null` gives the zero record without an error. A key
  selects a field regardless of the case of its ASCII letters. A later
  `null` leaves a string field alone and empties a map field. A second
  object for `metadata` or `tags` is merged into the first.

## Model

| member | source | states |
|---|---|---|
| NetAddr.NewNetAddr | hestia/netaddr.go:17-30 | `Network()` and `String()` return exactly the network and the address given |
| NetAddr.SplitHostPort | hestia/netaddr.go:34-37 | a colon-free address is a missing-port error. On success the port has no ':', the host has no brackets, and the input is `host:port` or `[host]:port` |
| NetAddr.SplitJoinHostPort | hestia/netaddr.go:34 | splitting a joined host and port returns both unchanged (round trip) |
| NetAddr.SplitPlain | hestia/netaddr.go:34 | `host:port` with a colon-free host splits into exactly that host and port |
| NetAddr.SplitBracketed | hestia/netaddr.go:34 | `[host]:port` splits into the bracket-free host and the port |
| NetAddr.CheckBrackets | hestia/netaddr.go:34 | the split succeeds exactly when no stray '[' or ']' follows the host part |
| NetAddr.FirstUsable | hestia/netaddr.go:66-74 | finds the first interface address that is an IPNet, not loopback and has an IPv4 form. It is None exactly when there is none |
| NetAddr.LocalIPv4Host | hestia/netaddr.go:60-77 | a failed interface listing is an error. Otherwise the result is the dotted quad of the first usable address, or "not found" when none exists. A success is never "" or "::" |
| NetAddr.LocalAddr | hestia/netaddr.go:55-77 | a failed interface listing is an error, "not found" comes exactly when no address is a non-loopback IPv4 one, and otherwise the result is the dotted quad of the first such address, never "" or "::" |
| NetAddr.ResolveEndpoint | hestia/netaddr.go:33-53 | split errors propagate. On success the host is never a wildcard and the port is an int64. A non-wildcard host is kept and a wildcard host becomes the local IPv4 address |
| NetAddr.Resolve | hestia/netaddr.go:33-53 | succeeds exactly when the endpoint resolves. The text is the host, ':' and the port in decimal |
| NetAddr.ResolveKeepsHost | hestia/netaddr.go:40-52 | a non-wildcard host passes through. The port is either reprinted canonically or its Atoi error is returned |
| NetAddr.ResolvePlainParsed | hestia/netaddr.go:47-52 | a parsed port n gives `host:Itoa(n)` |
| NetAddr.ResolveZeroPaddedPort | hestia/netaddr.go:47-52 | a leading zero on the port disappears from the result |
| NetAddr.ResolveBracketedParsed | hestia/netaddr.go:34-52 | a bracketed host loses its brackets in the result |
| NetAddr.ResolveEmptyHost | hestia/netaddr.go:40-45 | an empty host becomes the local IPv4 address, or the lookup error is returned |
| NetAddr.ResolveAnyHost | hestia/netaddr.go:40-45 | the host "::" is replaced likewise. A lookup failure is reported before any port error |
| NetAddr.ResolveNoColonExample | hestia/netaddr_test.go:16 | "8090" is a missing-port error |
| NetAddr.ResolveZeroHostExample | hestia/netaddr.go:40 | "0.0.0.0:8090" is returned unchanged |
| NetAddr.ResolveLocalhostExample | hestia/netaddr_test.go:18 | "localhost:8090" is returned unchanged |
| NetAddr.ResolveLeadingZeroExample | hestia/netaddr.go:47 | "localhost:08090" becomes "localhost:8090" |
| NetAddr.ResolveNegativePortExample | hestia/netaddr.go:47-52 | the port "-1" is accepted because there is no range check |
| NetAddr.ResolveLargePortExample | hestia/netaddr.go:47-52 | the port "99999" is accepted because there is no range check |
| NetAddr.ResolveIPv6Example | hestia/netaddr.go:34-52 | "[fe80::1]:80" becomes "fe80::1:80" |
| NetAddr.ResolveWildcardExample | hestia/netaddr.go:66-74 | ":8090" skips the loopback and non-IP addresses and takes 10.0.0.7 |
| NetAddr.ResolveLoopbackOnlyExample | hestia/netaddr.go:76 | with only 127.0.0.1 available, a wildcard host is the "not found" error |
| NetAddr.ResolveUnlistedExample | hestia/netaddr.go:61-64 | an unavailable interface list fails "[::]:bad" before the bad port is seen |
| Decimal.AtoiItoa | hestia/netaddr.go:47-52 | Atoi parses back every int64 that `%d` prints |
| Decimal.AtoiLeadingZero | hestia/netaddr.go:47 | a leading zero changes neither whether Atoi succeeds nor the value |
| Decimal.AtoiRejectsNonDigit | hestia/netaddr.go:47-50 | a non-digit after the first character is an Atoi error |
| Decimal.AtoiShortIsSyntax | hestia/netaddr.go:47-50 | a port text shorter than 19 characters can only fail with ErrSyntax, the error strconv gives for a bad character |
| Decimal.AtoiOutOfRange | hestia/netaddr.go:47-50 | a digit string outside int64, with or without a minus sign, fails with ErrRange and keeps the input text |
| Decimal.AtoiOverflowBeforeBadChar | hestia/netaddr.go:47-50 | digits that already exceed a uint64 give ErrRange even when a bad character follows them |
| Text.JoinSplit | example/tools/validator_gen/validator.go:131 | joining the pieces of a split with the separator gives the text back |
| Text.SplitJoin | example/tools/validator_gen/validator.go:131 | separator-free pieces survive join then split (round trip) |
| Text.SplitCount | example/tools/validator_gen/validator.go:131-136 | a split yields one more piece than there are separators |
| Text.RemoveAllJoin | gutils/utils.go:21-24 | removing the separator from a joined text gives the concatenation of the pieces |
| Text.RemoveAllCounts | gutils/utils.go:24 | `strings.Replace(s, "-", "", -1)` drops exactly the '-' characters and keeps every other one |
| Text.TrimRightWhere | example/tools/validator_gen/validator.go:46 | the result is the longest prefix that does not end in a dropped character |
| ServiceEntity.Marshal | hestia/service_entity.go:13-38 | encoding fails exactly when a metadata value is not encodable. Otherwise it writes one member per field under the JSON tags |
| ServiceEntity.UnmarshalMarshal | hestia/service_entity.go:13-38 | decoding an encoded record gives the record back (round trip) |
| ServiceEntity.FieldKeysDistinct | hestia/service_entity.go:13-38 | the eight JSON tags are pairwise distinct |
| ServiceEntity.FieldIndex | hestia/service_entity.go:13-38 | a key selects the field whose tag it is, otherwise the field whose tag it equals up to letter case, otherwise none |
| ServiceEntity.FieldIndexOfKey | hestia/service_entity.go:13-38 | each JSON tag selects its own field |
| ServiceEntity.FieldIndexIgnoresCase | hestia/service_entity.go:13-38 | a key that spells a tag in other letter case selects that tag's field |
| ServiceEntity.CapitalKeyExample | hestia/service_entity.go:18 | the key "Name" selects the name field |
| ServiceEntity.Unmarshal | hestia/etcd/discovery.go:163-164 | a JSON null decodes to the zero record, bytes that are neither an object nor null are an error, and an object decodes exactly when every member's value fits the Go type of the field it selects |
| ServiceEntity.DecodeFits | hestia/service_entity.go:13-38 | decoding the members succeeds exactly when each member's value fits its field |
| ServiceEntity.DecodeStringLast | hestia/service_entity.go:14-30 | a string field holds the last string given for it, whatever nulls, other fields and unknown keys follow |
| ServiceEntity.DecodeStringUnset | hestia/service_entity.go:14-30 | a string field that no member gives a string for stays empty |
| ServiceEntity.DecodeMetadata | hestia/service_entity.go:32-34 | a metadata key is present exactly when some object for metadata gives it after the last null, and it holds the value of the last such object. Objects merge |
| ServiceEntity.DecodeTags | hestia/service_entity.go:36-37 | a tag is present exactly when some object for tags gives it after the last null, and it holds the last string given for it, or "" for a null. Objects merge |
| ServiceEntity.NullBlobExample | hestia/etcd/discovery.go:163-164 | a stored null is no error and gives the zero record, and malformed bytes are an error |
| ServiceEntity.LaterNullExample | hestia/service_entity.go:18 | `{"name":"a","name":null}` keeps the name "a" |
| ServiceEntity.TagsMergeExample | hestia/service_entity.go:37 | two objects for tags give the union of their entries |
| ServiceEntity.RoundRobinHandler | hestia/service_entity.go:44-51 | the pick is one of the given services, and a one-element list always yields its element |
| ServiceEntity.RoundRobinReachesEvery | hestia/service_entity.go:48-50 | every instance is picked by some random draw |
| KvStore.SortedUnique | hestia/etcd/discovery.go:152 | two key-sorted entry lists with the same members are equal, so a prefix read is determined by the store's contents |
| KvStore.Put | hestia/etcd/registry.go:100-106 | the key then holds exactly the new value and lease, and every other key is unchanged |
| KvStore.Delete | hestia/etcd/registry.go:159-163 | the key is absent afterwards and all other entries stay |
| KvStore.GetPrefix | hestia/etcd/discovery.go:151-155 | returns exactly the entries whose key starts with the prefix, in key order |
| KvStore.GetPrefixNone | hestia/etcd/discovery.go:156-158 | a prefix that no key starts with reads nothing |
| KvStore.Expire | hestia/etcd/registry.go:126-147 | a lapsed lease takes exactly the keys attached to it |
| EtcdOptions.Apply | hestia/etcd/option.go:22-62 | each option stores its argument in its own field and leaves every other field alone |
| EtcdOptions.RegistryDefaults | hestia/etcd/registry.go:32-37 | 5 s dial timeout, prefix "hestia/registry-etcd", 60 s lease TTL |
| EtcdOptions.DiscoveryDefaults | hestia/etcd/discovery.go:28-33 | 5 s dial timeout, the same prefix, watching disabled |
| EtcdOptions.ApplyAllPrefix | hestia/etcd/option.go:44-48 | the prefix comes from the last WithPrefix, or the start value |
| EtcdOptions.ApplyAllLeaseTTL | hestia/etcd/option.go:51-55 | the TTL comes from the last WithLeaseTTL, or the start value |
| EtcdOptions.ApplyAllDialTimeout | hestia/etcd/option.go:23-27 | the timeout comes from the last WithDialTimeout, or the start value |
| EtcdOptions.ApplyAllUsername | hestia/etcd/option.go:30-34 | the username comes from the last WithUsername, or the start value |
| EtcdOptions.ApplyAllPassword | hestia/etcd/option.go:37-41 | the password comes from the last WithPassword, or the start value |
| EtcdOptions.ApplyAllEndpoints | hestia/etcd/option.go:8-17 | no option changes the endpoints |
| EtcdOptions.ApplyAllDisableWatch | hestia/etcd/option.go:58-62 | watching is disabled afterwards exactly when it was disabled before and no WithEnableWatched was given |
| EtcdOptions.ApplyAllAppend | hestia/etcd/registry.go:39-41 | applying two batches of options equals applying their concatenation |
| EtcdOptions.WatchOnlyByEnable | hestia/etcd/discovery.go:32-37 | discovery watches exactly when WithEnableWatched is among the options |
| EtcdOptions.PrefixDefault | hestia/etcd/option.go:12 | without WithPrefix both constructors use the default prefix |
| EtcdOptions.LeaseTTLOnlyTouchesTTL | hestia/etcd/option.go:51-55 | inserting a WithLeaseTTL anywhere changes no field but the TTL |
| EtcdDiscovery.InstanceKey | hestia/etcd/registry.go:100 | an instance key starts with its name's services key |
| EtcdDiscovery.NewDiscovery | hestia/etcd/discovery.go:27-52 | a dial error is returned as is. Otherwise the cache is empty and the prefix and watch switch come from the options |
| EtcdDiscovery.DecodeAllAppend | hestia/etcd/discovery.go:160-171 | decoding keeps the store's order and works piecewise |
| EtcdDiscovery.DecodeAllPicks | hestia/etcd/discovery.go:160-171 | the loop keeps one record per decodable entry, in the entries' order, and skips the rest. Any list built that way is the loop's result |
| EtcdDiscovery.FetchServices | hestia/etcd/discovery.go:147-174 | a read error propagates. Otherwise the result holds the decodable records under `<prefix>/<name>` and no other. It is the decoding loop applied to the prefix read |
| EtcdDiscovery.FetchServicesInOrder | hestia/etcd/discovery.go:151-171 | the prefix read is in increasing key order, and a successful fetch holds one record per decodable entry of it, in that order |
| FilterMaps.FilterMapPicks | hestia/etcd/discovery.go:161-171 | a loop that appends each value it can convert and skips the rest keeps every convertible element once, in order |
| FilterMaps.PicksDetermine | hestia/etcd/discovery.go:161-171 | one value per convertible element, in order, determines that loop's result |
| EtcdDiscovery.FetchNullRecord | hestia/etcd/discovery.go:161-168 | a stored JSON null is listed as the zero record, not skipped |
| EtcdDiscovery.FetchNothing | hestia/etcd/discovery.go:156-158 | no key under the name gives an empty list, not an error |
| EtcdDiscovery.GetServices | hestia/etcd/discovery.go:57-91 | with watching on, a cached list is returned untouched. Otherwise the store is read: an empty read is ErrServicesNotFound and changes nothing, and a non-empty read is cached (plus a watch when watching is on) |
| EtcdDiscovery.Reload | hestia/etcd/discovery.go:131-145 | a successful read replaces the name's cached list, even with an empty one. A failed read changes nothing, and other names are untouched |
| EtcdDiscovery.OnWatchEvent | hestia/etcd/discovery.go:116-129 | a put or delete under the name's prefix reloads the name, and anything else changes nothing |
| EtcdDiscovery.Get | hestia/etcd/discovery.go:95-108 | lookup errors propagate and the first non-nil strategy decides. The default handler returns a member of the list, and it panics exactly when the list is empty |
| EtcdDiscovery.UncachedIgnoresCache | hestia/etcd/discovery.go:62-66 | with watching disabled the cache never affects the result |
| EtcdDiscovery.CachedHitIgnoresStore | hestia/etcd/discovery.go:62-68 | with watching enabled a cached name is answered without the store |
| EtcdDiscovery.MissThenHit | hestia/etcd/discovery.go:78-84 | after a successful miss the next call returns the same list whatever the store holds |
| EtcdDiscovery.FetchMatchesLongerName | hestia/etcd/discovery.go:151-152 | the prefix read for "user" also returns the instances of "users" |
| EtcdDiscovery.ReloadToEmpty | hestia/etcd/discovery.go:143 | after a reload to nothing, the cached empty list is served without error, where a plain miss reports ErrServicesNotFound |
| EtcdRegistry.NewRegistry | hestia/etcd/registry.go:31-56 | a dial error is returned as is. Otherwise the prefix and TTL come from the options and there is no lease yet |
| EtcdRegistry.NewRegistryDefaults | hestia/etcd/registry.go:32-37 | without options the result is the default prefix and a 60 s TTL, and a WithLeaseTTL sets the TTL |
| EtcdRegistry.WithInstanceId | hestia/etcd/registry.go:60-62 | a missing instance ID is replaced by what `gutils.Uuid` generates and a present one is kept, so the ID is never empty |
| EtcdRegistry.PutRecord | hestia/etcd/registry.go:94-110 | an encoding error or a put error writes nothing. On success the key holds the encoded record on the lease and nothing else changes |
| EtcdRegistry.Register | hestia/etcd/registry.go:59-92 | the ID and the resolved address are written back even when a later step fails. A granted lease stays granted, and the key is written before the keepalive. It succeeds exactly when every step does, and only then is the lease remembered |
| EtcdRegistry.Deregister | hestia/etcd/registry.go:113-167 | an empty name is refused first, then the address must resolve. Afterwards the key is gone and the stop signal closed, which panics when it was already closed |
| EtcdRegistry.RegisterThenDiscover | hestia/etcd/registry.go:59-110 | a registered instance is found by discovery under its name, with a non-wildcard resolved address |
| EtcdRegistry.DeregisterThenNotFound | hestia/etcd/registry.go:149-167 | after the only instance is deregistered, an uncached lookup reports ErrServicesNotFound |
| EtcdRegistry.LeaseExpiryRemovesInstance | hestia/etcd/registry.go:126-147 | when the lease lapses, the instance key disappears with it |
| EtcdRegistry.DeregisterTwicePanics | hestia/etcd/registry.go:165 | a second successful Deregister closes a closed channel |
| EtcdRegistry.DeregisterChecked | hestia/etcd/registry.go:149-167 | never panics. It succeeds exactly when the name is set, the address resolves and the delete succeeds, and otherwise agrees with Deregister |
| EtcdRegistry.DeregisterCheckedTwice | hestia/etcd/registry.go:165 | with the checked version a repeated call succeeds and changes nothing |
| GUtils.HexEncode | gutils/utils.go:61 | two lowercase hex digits per byte |
| GUtils.HexDecodeEncode | gutils/utils.go:58-62 | hex encoding loses nothing: decoding gives the bytes back |
| GUtils.Md5 | gutils/utils.go:58-62 | 32 lowercase hex digits that decode to the digest |
| GUtils.Wrap64 | gutils/utils.go:54 | the int64 two's-complement wrap of a result, the identity on int64 values |
| GUtils.RandInt64 | gutils/utils.go:48-55 | returns max in the degenerate cases and otherwise a value in [min, max). It panics exactly when max-min overflows int64 |
| GUtils.RandInt64Checked | gutils/utils.go:48-55 | never panics, stays within [min, max) or returns max as written |
| GUtils.RandInt64CheckedAgrees | gutils/utils.go:48-55 | the checked version agrees wherever the original does not panic |
| GUtils.RndSeed | gutils/utils.go:39-42 | the decimal clock followed by four more digits that parse as a number |
| GUtils.FourDigits | gutils/utils.go:41 | a number in [1000, 9999] prints as four digits |
| GUtils.RndUUIDMd5 | gutils/utils.go:38-45 | 32 hex digits that decode to the MD5 of the seed |
| GUtils.DashLayoutRemoveAll | gutils/utils.go:34 | removing the dashes of the 8-4-4-4-12 layout gives the text back |
| GUtils.JoinDashLayout | micro/gutils.go:49-51 | joining the five pieces with "-" is the `%s-%s-%s-%s-%s` layout |
| GUtils.RndUUID | gutils/utils.go:32-35 | 36 characters with dashes at positions 8, 13, 18 and 23, and without them it is RndUUIDMd5 |
| GUtils.Uuid | gutils/utils.go:18-25 | always 32 dash-free characters: the random UUID's hex, or RndUUIDMd5 when the random source fails |
| MicroUtils.GetGRPCClientIP | micro/gutils.go:27-40 | no peer and nil address are distinct errors. Otherwise the result is the address up to its first ':' |
| MicroUtils.ClientIPOfHostPort | micro/gutils.go:37-39 | a "host:port" peer yields its host |
| MicroUtils.ClientIPOfBracketed | micro/gutils.go:37-39 | a bracketed IPv6 peer "[::1]:port" yields just "[" |
| MicroUtils.RndUUID | micro/gutils.go:47-52 | the same text as the gutils spelling, 36 characters whose dash-free form is RndUUIDMd5 |
| MicroConfig.DefaultService | micro/micro.go:560-589 | tcp, a 5 s shutdown timeout, the six default signals, recovery on both chains, and every switch off |
| MicroConfig.ApplyAppends | micro/option.go:24-141 | the list options append their arguments after the entries already there |
| MicroConfig.ApplyStores | micro/option.go:17-175 | the switches turn on and the other options store their argument |
| MicroConfig.ApplyWritesOneField | micro/option.go:17-175 | an option leaves every field but its own alone |
| MicroConfig.ApplyOverwrites | micro/option.go:17-175 | an overwriting option stores the same value whatever was there |
| MicroConfig.ApplyAllUnwritten | micro/micro.go:94-96 | a field no option writes keeps its starting value |
| MicroConfig.ApplyAllKeepsAddressAndAnnotators | micro/micro.go:90-96 | no option changes the gRPC address or the annotators |
| MicroConfig.ApplyAllLastWins | micro/micro.go:94-96 | an overwritten field holds the value of the last option writing it |
| MicroConfig.ApplyAllSwitch | micro/option.go:73-175 | a switch is on afterwards exactly when it was on before or some option sets it. No option turns one off |
| MicroConfig.ApplyAllAppends | micro/micro.go:94-96 | when every option appends what it carries to one list, applying options in order appends all of their arguments in that order |
| MicroConfig.ApplyAllUnaryInterceptor | micro/option.go:24-28 | the unary interceptors are the starting ones followed by every WithUnaryInterceptor's arguments in order |
| MicroConfig.ApplyAllStreamInterceptor | micro/option.go:31-35 | likewise for the stream interceptors |
| MicroConfig.ApplyAllInterruptSignals | micro/option.go:52-56 | likewise for the interrupt signals |
| MicroConfig.ApplyAllGRPCServerOption | micro/option.go:59-63 | likewise for the server options |
| MicroConfig.ApplyAllServerMetricsOptions | micro/option.go:87-91 | likewise for the metrics options |
| MicroConfig.ApplyAllHandlerFromEndpoints | micro/option.go:108-112 | likewise for the endpoint handlers |
| MicroConfig.ApplyAllMuxOption | micro/option.go:122-126 | likewise for the mux options |
| MicroConfig.ApplyAllRoutes | micro/option.go:129-133 | likewise for the routes |
| MicroConfig.ApplyAllGRPCEndpointDialOptions | micro/option.go:136-140 | likewise for the dial options |
| MicroService.InstallInterceptors | micro/micro.go:98-125 | validator (both chains), request access (unary) and prometheus (both) are appended in that order, each only when switched on. Then the two chain options follow the server options |
| MicroService.DeriveModes | micro/micro.go:134-158 | a non-empty HTTP address forces share mode off and the gateway on. Share mode sets the HTTP address to the gRPC address and keeps the caller's HTTP server, or installs the default one when none was given |
| MicroService.DeriveModesIntended | micro/micro.go:134-143 | equal gRPC and HTTP addresses select share mode, and different ones select the gateway |
| MicroService.GatewayDefaults | micro/micro.go:160-195 | only when the gateway is on, it adds the insecure dial option when none was given, the default error handler, the mux options (caller's, marshaler, error handler, annotators), and the default HTTP handler when none was given (a given one is kept) |
| MicroService.AnnotatorOptions | micro/micro.go:184-186 | one WithMetadata option per annotator, in order |
| MicroService.Finish | micro/micro.go:127-195 | the gRPC server gets the server options, and a mux exists exactly when the gateway is on |
| MicroService.NewServiceUnaryChain | micro/micro.go:89-125 | the unary chain is recovery, the options' interceptors, then validator, access and prometheus. The server options end with the two chains |
| MicroService.NewServiceStreamChain | micro/micro.go:89-125 | the stream chain is recovery, the options' interceptors, then validator and prometheus |
| MicroService.NewServiceMuxOptions | micro/micro.go:179-189 | the mux options are the caller's followed by the default marshaler and the error handler |
| MicroService.Mode | micro/micro.go:201-214 | share mode comes first, then gRPC alone when the gateway is off, otherwise two servers |
| MicroService.ListenNetwork | micro/micro.go:501-503 | an empty network becomes "tcp" and any other is kept |
| MicroService.NormalizePath | micro/micro.go:539-541 | the path starts with "/", and one that already did is kept |
| MicroService.NormalizePathIdempotent | micro/micro.go:539-541 | normalising twice is normalising once |
| MicroService.AppRoutes | micro/micro.go:537-555 | every route is registered with a normalised path. Registration stops at the first error and returns its position |
| MicroService.RegisterEndpoints | micro/micro.go:346-352 | the handlers run in order and stop at the first error, which is returned with its position |
| MicroService.StartGateway | micro/micro.go:513-530 | an endpoint handler error stops the gateway before the routes |
| MicroService.Run | micro/micro.go:201-371 | share mode refuses an empty gRPC address. Two servers refuses equal addresses. gRPC alone listens on the network and address. Otherwise share mode and two servers start exactly when the gateway's endpoints and routes register, and fail with the gateway's first error. Each mode serves HTTP on its own address |
| MicroService.HTTPAddressDisablesShare | micro/micro.go:135-143 | any non-empty HTTP address ends in two-server mode, even one equal to the gRPC address |
| MicroService.SameAddressNeverStarts | micro/micro.go:135-143 | configuring the gRPC address as the HTTP address always fails with "address are the same" |
| MicroService.IntendedSameAddressShares | micro/micro.go:134-158 | with the intended rule equal addresses run in share mode and never hit that error |
| MicroService.IntendedDerivationShares | micro/micro.go:134-158 | equal non-empty addresses survive the derivation with share mode on |
| MicroService.MDSet | micro/micro.go:426 | the lower-cased key then holds exactly the one value, and every other key is unchanged |
| MicroService.MDSetGet | micro/micro.go:426 | a key without capitals reads back the value that `Set` stored, and so does the lower-cased form of any key |
| MicroService.InterceptorKeysLower | micro/micro.go:426-447 | the three metadata keys the interceptor writes are lower case, so `Set` stores them unchanged |
| MicroService.RequestInterceptor | micro/micro.go:419-462 | a missing request ID is replaced by a 32-character gutils.Uuid and a present one is kept. The client IP and method are set for the handler, and every other metadata key reaches it unchanged. A handler error gives a nil reply, and a panic becomes an internal error |
| MicroService.ServedByGRPCExamples | micro/micro.go:610-618 | on the shared port a request reaches gRPC exactly when it is HTTP/2 or later and its content type contains "application/grpc". HTTP/1 never does |
| Slogger.InitialOptions | slogger/slog.go:13-17 | Info level, no callback, no file output |
| Slogger.Apply | slogger/option.go:42-113 | a record without a callback still has none after any option |
| Slogger.ApplyIntended | slogger/option.go:105-113 | a non-nil callback is installed. Other options act as written, and WithReplaceAttr touches nothing else |
| Slogger.ApplyAllLastSetter | slogger/option.go:42-103 | when each option either sets a field to its argument or leaves it alone, the field ends up with the last setter's argument, or keeps its starting value |
| Slogger.ApplyAllLevel | slogger/option.go:91-95 | the level comes from the last WithLevel, or the start value |
| Slogger.ApplyAllOutputToFile | slogger/option.go:49-53 | the output switch comes from the last WithOutputToFile, or the start value |
| Slogger.ApplyAllFileName | slogger/option.go:56-60 | the file name comes from the last WithFileName, or the start value |
| Slogger.ApplyAllFileMaxSize | slogger/option.go:63-67 | the size limit comes from the last WithFileMaxSize, or the start value |
| Slogger.ApplyAllFileMaxBackups | slogger/option.go:70-74 | the backup count comes from the last WithFileMaxBackups, or the start value |
| Slogger.ApplyAllFileMaxAge | slogger/option.go:77-81 | the age limit comes from the last WithFileMaxAge, or the start value |
| Slogger.ApplyAllCompress | slogger/option.go:84-88 | compression comes from the last WithCompress, or the start value |
| Slogger.ApplyAllAddSource | slogger/option.go:98-102 | source positions come from the last WithAddSource, or the start value |
| Slogger.ApplyAllJSON | slogger/option.go:42-46 | JSON is on afterwards exactly when it was on before or WithEnableJSON was given |
| Slogger.ApplyAllKeepsNilReplaceAttr | slogger/option.go:105-113 | as written, WithReplaceAttr never installs a callback on a record without one |
| Slogger.ApplyAllIntendedReplaceAttr | slogger/option.go:105-113 | with the intended rule, the callback is the last non-nil one given, or the start value |
| Slogger.ApplyAllIntendedAgrees | slogger/option.go:42-103 | without WithReplaceAttr the intended and the written folds agree |
| Slogger.OrDefault | slogger/slog.go:25-39 | a zero setting becomes its default and any other value is kept |
| Slogger.Build | slogger/slog.go:23-66 | file output fills in only the zero or empty file settings, and otherwise the log goes to standard output. JSON picks the handler. Level, source and callback pass through |
| Slogger.Init | slogger/slog.go:12-67 | as written, the installed logger never has a callback |
| Slogger.InitIntended | slogger/slog.go:12-67 | with the intended rule, the callback is the last non-nil one given |
| Slogger.InitFileSettingsSet | slogger/slog.go:24-48 | a rotating file never gets an empty name or a zero limit |
| Slogger.InitWithoutOptions | slogger/slog.go:12-67 | without options Init logs text at Info level to standard output |
| Slogger.InitFileDefaults | slogger/slog.go:25-39 | file output alone uses app.log, 100, 10 and 30 |
| Slogger.InitLevel | slogger/slog.go:55 | the installed level is the last WithLevel's, or Info |
| Slogger.ReplaceAttrIgnored | slogger/option.go:105-113 | WithReplaceAttr has no effect through Init, but takes effect with the intended rule |
| ValidatorGen.Reads | example/tools/validator_gen/validator.go:111-119 | the reads of ReadBytes('\n') rebuild the file. Only the last read hits EOF, and it holds the unterminated tail |
| ValidatorGen.ReadsArePieces | example/tools/validator_gen/validator.go:111-119 | each non-final read is a newline-separated piece plus its newline, and the final read is the last piece |
| ValidatorGen.LineNameMeaning | example/tools/validator_gen/validator.go:126-139 | a line names a validator exactly when, newlines trimmed, it is non-empty with exactly one '='. The name is the trimmed text after it |
| ValidatorGen.LineNameNewline | example/tools/validator_gen/validator.go:127 | a trailing newline does not change what a line contributes |
| ValidatorGen.PairLineName | example/tools/validator_gen/validator.go:126-138 | the line `key=name` names `name` |
| ValidatorGen.TerminatedLines | example/tools/validator_gen/validator.go:112-124 | one line per newline in the file |
| ValidatorGen.GetAllReqValidatorNames | example/tools/validator_gen/validator.go:97-145 | a missing log gives nil. Otherwise the names of the newline-terminated lines, in order |
| ValidatorGen.IntendedNamesExtends | example/tools/validator_gen/validator.go:112-140 | the intended reading equals the written one plus the last line's name when no newline ends the file |
| ValidatorGen.UnterminatedLineDropped | example/tools/validator_gen/validator.go:114-119 | a log whose only line is `key=name` without a newline yields no names as written, and `[name]` as intended |
| ValidatorGen.CheckFlags | example/tools/validator_gen/validator.go:37-47 | refuses an empty flag. Trailing '/' characters are stripped from the proto directory only |
| ValidatorGen.PlanFor | example/tools/validator_gen/validator.go:49-95 | nothing is generated for a nil or empty list. Otherwise both files go into the proto directory for exactly these names |
| ValidatorGen.RunTool | example/tools/validator_gen/validator.go:37-95 | flags are checked first. The plan is empty exactly when the log is missing or names nothing, and otherwise it covers the names read |

## Left out

- Network, goroutines and signals are left out. This covers the gRPC
  server's Serve, ListenAndServe, graceful stop and shutdown timeouts,
  signal handling (`startGRPCService`, `startTwoServices`,
  `startUseOneAddress`, `stopGRPCServer`, `stopTwoServices`,
  `httpServerShutdown`) and `GetPid`. `MicroService.Run` stops where
  listening would begin, and listen failures are not modelled.
- `Decimal.Atoi`: a rejection keeps the input and the ErrSyntax/ErrRange
  kind, but not strconv.NumError's Func field, which is always "Atoi"
  here.
- The keepalive and watch loops are left out as loops. Their effect is
  modelled instead: `KvStore.Expire` for a lapsed lease and
  `EtcdDiscovery.OnWatchEvent` for a watch event. The lock-protected
  concurrency of the cache is not modelled.
- JSON is modelled as a list of members rather than as text bytes.
  Bytes that are not JSON and JSON values other than an object or `null`
  are one case, because `json.Unmarshal` rejects both. Inside one object
  a later duplicate key has already replaced the earlier one. A metadata
  value that cannot be encoded is represented symbolically.
- `ServiceEntity.UnmarshalMarshal`: metadata values are compared by
  their JSON text. Go decodes every JSON number in metadata to a
  `float64`, so an `int` comes back as a `float64` and the `int64`
  9007199254740993 comes back as 9007199254740992. That decoding is not
  modelled, so the round trip is exact only up to it. A Go string is
  a byte sequence and may hold invalid UTF-8, which json.Marshal writes
  as U+FFFD. A Dafny string is a sequence of characters and cannot hold
  such bytes, so the round trip is stated for valid UTF-8 text only.
- `EtcdRegistry.RegisterThenDiscover`: the record discovery returns
  equals the registered one only up to the same `float64` decoding of
  metadata numbers, which is not modelled. It also holds only for
  fields of valid UTF-8 text: json.Marshal replaces invalid UTF-8 bytes
  in a Go string with U+FFFD, and such bytes have no Dafny string.
- `ServiceEntity.FieldIndex`: letter case is ignored for ASCII letters
  only. Go's Unicode case folding also matches a few other letters to
  ASCII ones, such as the Kelvin sign to "k" and the long s to "s". A key
  with such a letter selects no field here.
- `MicroService.MDSet`: only ASCII letters are lower-cased, while
  `strings.ToLower` also lower-cases letters of other scripts. The keys
  the interceptor writes are ASCII.
- The MD5 function, the v4 UUID generator, the clock and the random
  draws are parameters. The bits of a v4 UUID are not modelled.
- The templates and the file writes of validator_gen are left out. Its
  `log.Fatalln` exits are error results. A read error other than EOF
  ends the reading just like EOF, so it is not distinguished.
- `IncomingMD` and `GetStringFromMD` are not part of this model. The
  interceptor reads metadata through `MicroService.MDGet`.
- `CatchStack`, `slogger.With`, `defaultGRPCHTTPHandler`, the h2c
  wrapper beyond its routing test, and the `String()` methods of the
  registry and discovery (both return "etcd") are left out. They are
  foreign calls or constants with no logic of their own.
- The etcd client creation (`newEtcdClient`) is not part of this model.
  Its failure is the `dialErr` parameter of the constructors.
- Option values that are Go functions (the recovery and shutdown
  functions, handlers, loggers) are opaque tokens. Where the code tests
  such a value for nil (micro's HTTP server, HTTP handler and HTTP error
  handler, and slogger's replaceAttr) the value is a `Base.Option` and
  nil is `None`. The other function values are never tested for nil, so
  nil and non-nil ones are not told apart.
- `Slogger.Apply`: its contract states only the callback property.
  Each field's value after a list of options is given by the
  `Slogger.ApplyAll*` lemmas instead.

## Findings

| source | as written | input that shows it | evidently intended | confidence | as-written member | corrected member |
|---|---|---|---|---|---|---|
| hestia/etcd/discovery.go:101-106 | after a watch reloads a name to an empty list, Get hands that list to RoundRobinHandler, and rand.Intn(0) panics | watching enabled, the last instance of a name deregistered, then Get(name) | report ErrServicesNotFound as a plain miss does | not executed | EtcdDiscovery.GetPanicsAfterReloadToEmpty | EtcdDiscovery.GetChecked |
| gutils/utils.go:54 | `max-min` is computed in int64 and wraps negative, and Int63n panics on it | RandInt64(-1, MaxInt64) | a value in [min, max) | not executed | GUtils.RandInt64OverflowExample | GUtils.RandInt64Checked |
| micro/micro.go:135-143 | share mode is set for equal addresses and then unconditionally cleared, so Run fails with "address are the same" | NewService(a, WithGRPCHTTPAddress(a)) | equal addresses run gRPC and HTTP on one port | not executed | MicroService.SameAddressNeverStarts | MicroService.IntendedSameAddressShares |
| slogger/option.go:108-110 | WithReplaceAttr returns early when no callback is set yet, so a callback is never installed | Init(WithReplaceAttr(f)) | install f | not executed | Slogger.ReplaceAttrIgnored | Slogger.ApplyAllIntendedReplaceAttr |
| example/tools/validator_gen/validator.go:114-119 | ReadBytes returns the final unterminated line together with io.EOF, and the loop breaks before using it | a validator.log holding `k=Name` with no final newline | the last line's name is included | not executed | ValidatorGen.UnterminatedLineDropped | ValidatorGen.IntendedNamesExtends |
| hestia/etcd/registry.go:165 | a second Deregister closes the already closed stop channel and panics | Deregister(s) twice | the second stop is harmless | not executed | EtcdRegistry.DeregisterTwicePanics | EtcdRegistry.DeregisterCheckedTwice |
