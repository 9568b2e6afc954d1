# Operation routing of z-mhus-sop, in Dafny

This project models the operation layer of the z-mhus-sop OSGi framework.
That layer names, registers, finds and runs versioned "operations" across
the nodes of a cluster. The model covers:

- **Addressing** (`operation_address.dfy`). The operation address
  `provider://group.name:version/part/part`. Covers the parser (the
  `OperationAddress` constructor), its getters, and `create`, which builds
  an address. `create` is proved to be the inverse of the parser.
- **Exceptions** (`operation_exception.dfy`). `OperationException`: a
  return code, a message, a caption and a cause. Covers its constructors and
  its `toString`, which is proved decodable.
- **Registry** (`registry_value.dfy`). `RegistryValue`: the local flag, the
  `location@name` split of its path, and the order by path, proved to be
  `String.compareTo`. The remote link is a mutable field.
- **Descriptors** (`descriptor.dfy`). The values passed around:
  - operation descriptions and descriptors;
  - queries, results and failures;
  - `Env`, the helpers whose code lies outside the model.
- **LocalProvider** (`local_operations_provider.dfy`).
  `LocalOperationsProvider`: the register of this node's operation services,
  keyed `path:versionString`. Covers:
  - the tracker callbacks;
  - descriptor creation (the tag union and the ACL resolution);
  - discovery;
  - both execute paths: resolving the callable, the access check, and
    mapping exceptions onto results.
- **Aggregator** (`operation_api.dfy`). `OperationApiImpl`: the map from
  provider name to provider. Covers:
  - concatenating discovery and first-match lookup;
  - execution that tries providers until one does not answer NotFound;
  - routing by descriptor;
  - a synchronisation that a throwing provider does not stop.
- **JmsRegister** (`jms_register_server.dfy`). The handler of `JmsRegisterServer`
  for registry-topic messages. It ignores its own queue and records requests.
  For an announce it upserts entries keyed `connection,queue,path,version`,
  stamps them and sweeps the stale entries of the announcing queue. The
  full-replace-per-queue behaviour is proved.
- **JmsChannel** (`jms2local_channel.dfy`). `Jms2LocalOperationExecuteChannel`.
  Covers the public catalog (`path:version` of every descriptor the JMS
  provider does not own, in the aggregator's order), the interceptor rule
  after a reset, and the delegations to the aggregator.
- **Strings** and **Wrappers**. The Java string operations the code relies on:
  - `indexOf` and `lastIndexOf`;
  - `split`, which drops trailing empty strings;
  - `Long.toString` and `String.valueOf` of null.

  Also `Option`, `Result` and the 64-bit `long`.

Helpers whose code is not shown are parameters:
- `OperationUtil.matches` and `getOption`;
- `Version.toString`;
- the AccessApi answers;
- the provider behaviours;
- the clock;
- the constants `DEFAULT_PROVIDER_NAME`, `SOURCE_LOCAL` and the JMS provider names.

Every property holds for whatever they do.

Where the code and its intent differ, the model follows the code:
- At execute time the access check recomputes the ACL from the descriptor's
  tags. It does not use the ACL resolved at registration
  (LocalOperationsProvider.java:219).
- The refusal thrown inside the `try` at line 221 is caught at line 222.
  So a refusal and a failing check both surface as AccessDenied "internal error".
- `OperationApiImpl.getOperation` dereferences the provider lookup without a
  null check (OperationApiImpl.java:145-146). An unknown
  provider is therefore a NullPointer failure, not NotFound.

## Model

| member | source | states |
|---|---|---|
| Strings.IndexOf | mhu-sop-api/src/main/java/de/mhus/osgi/sop/api/operation/OperationAddress.java:37 | `indexOf(String)`: the first occurrence of the pattern, and None exactly when it does not occur |
| Strings.IndexOfChar | mhu-sop-api/src/main/java/de/mhus/osgi/sop/api/operation/OperationAddress.java:44-53 | `indexOf(char)`: an index holding the character with none before it, and None exactly when it is absent |
| Strings.LastIndexOfChar | mhu-sop-api/src/main/java/de/mhus/osgi/sop/api/operation/OperationAddress.java:60 | `lastIndexOf(char)`: an index holding the character with none after it, and None exactly when it is absent |
| Strings.SplitAll | mhu-sop-api/src/main/java/de/mhus/osgi/sop/api/operation/OperationAddress.java:63 | the full split: at least one piece, no piece holds the separator, and joining the pieces gives the input back |
| Strings.DropTrailingEmpty | mhu-sop-api/src/main/java/de/mhus/osgi/sop/api/operation/OperationAddress.java:63 | the trailing-empty removal of `String.split`: a prefix of the pieces that does not end in "", with only "" dropped |
| Strings.SplitJoin | mhu-sop-api/src/main/java/de/mhus/osgi/sop/api/operation/OperationAddress.java:63 | splitting a join of separator-free pieces gives the pieces back |
| Strings.SplitAllCons | mhu-sop-api/src/main/java/de/mhus/osgi/sop/api/operation/OperationAddress.java:63 | a separator-free head followed by the separator splits off as the first piece |
| Strings.JavaSplitPieces | mhu-sop-api/src/main/java/de/mhus/osgi/sop/api/operation/OperationAddress.java:63 | no piece of a Java split contains the separator |
| Strings.JavaSplitJoin | mhu-sop-api/src/main/java/de/mhus/osgi/sop/api/operation/OperationAddress.java:63 | Java split inverts the join of separator-free pieces whose last piece is not empty |
| Strings.IndexOfCharAt | mhu-sop-api/src/main/java/de/mhus/osgi/sop/api/operation/OperationAddress.java:44 | an occurrence with none before it is what `indexOf` finds |
| Strings.NatToString | mhu-sop-api/src/main/java/de/mhus/osgi/sop/api/operation/OperationException.java:53 | the decimal rendering is non-empty and made of digits only |
| Strings.ParseNatToString | mhu-sop-api/src/main/java/de/mhus/osgi/sop/api/operation/OperationException.java:53 | reading the decimal rendering back gives the number |
| Strings.NatToStringInjective | mhu-sop-api/src/main/java/de/mhus/osgi/sop/api/operation/OperationException.java:53 | distinct numbers render differently |
| Strings.IntToStringRoundTrip | mhu-sop-api/src/main/java/de/mhus/osgi/sop/api/operation/OperationException.java:53 | a signed decimal rendering reads back as its number and holds no space |
| Addressing.SplitScheme | mhu-sop-api/src/main/java/de/mhus/osgi/sop/api/operation/OperationAddress.java:37-43 | the provider is the text before the first "://" (which it does not contain) and the rest follows it; without "://" the whole text is the rest |
| Addressing.SplitAtFirst | mhu-sop-api/src/main/java/de/mhus/osgi/sop/api/operation/OperationAddress.java:44-58 | the text before the first occurrence of the character, free of it, and the text after that occurrence; without one the whole text and nothing after. The segment is cut at its first '/' and the path at its first ':' |
| Addressing.SplitParts | mhu-sop-api/src/main/java/de/mhus/osgi/sop/api/operation/OperationAddress.java:62-66 | parts are slash-free and never end in an empty part, and an empty rest gives no parts |
| Addressing.Parse | mhu-sop-api/src/main/java/de/mhus/osgi/sop/api/operation/OperationAddress.java:33-68 | the parsed address keeps the raw text for `toString`, and without "://" its provider is the default provider |
| Addressing.ParseComponents | mhu-sop-api/src/main/java/de/mhus/osgi/sop/api/operation/OperationAddress.java:37-66 | with "://" the provider is free of it and the raw text starts with provider + "://"; without it the provider is the default; path, version and parts are always composable again |
| Addressing.Address.ToString | mhu-sop-api/src/main/java/de/mhus/osgi/sop/api/operation/OperationAddress.java:81-84 | `toString`: the text the address was parsed from (stated by Parse) |
| Addressing.Address.Part | mhu-sop-api/src/main/java/de/mhus/osgi/sop/api/operation/OperationAddress.java:86-88 | `getPart`: the part at the index; an index outside the parts is excluded, as the source throws |
| Addressing.Address.PartSize | mhu-sop-api/src/main/java/de/mhus/osgi/sop/api/operation/OperationAddress.java:90-92 | `partSize`: the number of parts, which RoundTrip shows is the number composed |
| Addressing.Address.Group | mhu-sop-api/src/main/java/de/mhus/osgi/sop/api/operation/OperationAddress.java:94-98 | `getGroup`: the path before its last '.', or ""; GroupAndName and GroupNameOf prove it the group of group + "." + name |
| Addressing.Address.Name | mhu-sop-api/src/main/java/de/mhus/osgi/sop/api/operation/OperationAddress.java:100-105 | `getName`: the path after its last '.', or the whole path; GroupAndName proves it free of '.' |
| Addressing.GroupAndName | mhu-sop-api/src/main/java/de/mhus/osgi/sop/api/operation/OperationAddress.java:60-105 | with a '.' the path is group + "." + name and the name has no '.'; without one the group is "" and the name is the path |
| Addressing.GroupNameOf | mhu-sop-api/src/main/java/de/mhus/osgi/sop/api/operation/OperationAddress.java:94-105 | a path group + "." + name with a dot-free name has exactly that group and name |
| Addressing.LastDotSplit | mhu-sop-api/src/main/java/de/mhus/osgi/sop/api/operation/OperationAddress.java:60 | the last '.' of group + "." + name with a dot-free name is at the end of the group |
| Addressing.LastIndexOfCharAt | mhu-sop-api/src/main/java/de/mhus/osgi/sop/api/operation/OperationAddress.java:60 | an occurrence with none after it is what `lastIndexOf` finds |
| Addressing.NoColonNoScheme | mhu-sop-api/src/main/java/de/mhus/osgi/sop/api/operation/OperationAddress.java:37 | a provider name without ':' cannot contain "://" |
| Addressing.Compose | mhu-sop-api/src/main/java/de/mhus/osgi/sop/api/operation/OperationAddress.java:112-121 | the text `create` builds, provider + "://" + path, the optional ":version" and a "/part" per part; RoundTrip proves the parser inverts it |
| Addressing.Create | mhu-sop-api/src/main/java/de/mhus/osgi/sop/api/operation/OperationAddress.java:112-121 | `create` parses `provider://path[:version]/part...`, and recovers provider, path, version and parts whenever they are composable |
| Addressing.Build | mhu-sop-api/src/main/java/de/mhus/osgi/sop/api/operation/OperationAddress.java:113-119 | the StringBuilder loop builds provider + "://" + path, the optional ":version" and one "/part" per part |
| Addressing.BuildStep | mhu-sop-api/src/main/java/de/mhus/osgi/sop/api/operation/OperationAddress.java:117-118 | one more loop turn appends "/" and the next part |
| Addressing.SlashedAppend | mhu-sop-api/src/main/java/de/mhus/osgi/sop/api/operation/OperationAddress.java:117-118 | the parts text of a longer list is that of the shorter one, "/" and the new part |
| Addressing.SlashedIsJoin | mhu-sop-api/src/main/java/de/mhus/osgi/sop/api/operation/OperationAddress.java:117-118 | the parts text is "/" followed by the parts joined with '/' |
| Addressing.SchemeSplit | mhu-sop-api/src/main/java/de/mhus/osgi/sop/api/operation/OperationAddress.java:37-40 | a provider free of "://" is exactly what the parser cuts off before the first "://" |
| Addressing.SegmentSplit | mhu-sop-api/src/main/java/de/mhus/osgi/sop/api/operation/OperationAddress.java:44-47 | a slash-free segment followed by the parts text splits into that segment and the joined parts |
| Addressing.VersionSplit | mhu-sop-api/src/main/java/de/mhus/osgi/sop/api/operation/OperationAddress.java:53-58 | a colon-free path with its optional ":version" splits back into that path and version |
| Addressing.VersionSplitAt | mhu-sop-api/src/main/java/de/mhus/osgi/sop/api/operation/OperationAddress.java:53-56 | path + ":" + t with a colon-free path gives the path and the version token t |
| Addressing.JoinNotEmpty | mhu-sop-api/src/main/java/de/mhus/osgi/sop/api/operation/OperationAddress.java:62 | parts whose last part is non-empty join to a non-empty rest |
| Addressing.PartsSplit | mhu-sop-api/src/main/java/de/mhus/osgi/sop/api/operation/OperationAddress.java:62-66 | the rest after the path of composable parts splits back into exactly those parts |
| Addressing.RoundTrip | mhu-sop-api/src/main/java/de/mhus/osgi/sop/api/operation/OperationAddress.java:112-121 | parsing a composed address recovers provider, path, version and parts, when the provider has no "://", the path no '/' or ':', the version no '/', the parts no '/' and the last part is non-empty |
| Addressing.ParseComposeParse | mhu-sop-api/src/main/java/de/mhus/osgi/sop/api/operation/OperationAddress.java:33-121 | composing the components of any parsed address and parsing again gives the same components |
| Addressing.DocumentationExample | mhu-sop-api/src/main/java/de/mhus/osgi/sop/api/operation/OperationAddress.java:11-19 | `jms://de.xyz.Operation:1.2.3/remote/sop` has provider jms, group de.xyz, name Operation, version 1.2.3 and parts remote, sop, and prints back unchanged |
| Addressing.DocExampleComponents | mhu-sop-api/src/main/java/de/mhus/osgi/sop/api/operation/OperationAddress.java:11-19 | the documented components are composable |
| Addressing.DocExampleComposed | mhu-sop-api/src/main/java/de/mhus/osgi/sop/api/operation/OperationAddress.java:11-19 | the documented components compose to the documented address |
| Addressing.ParsedExample | mhu-sop-api/src/main/java/de/mhus/osgi/sop/api/operation/OperationAddress.java:33-105 | a composed `provider://group.name:version/parts` parses to that provider, group, name, version and parts |
| Addressing.ComposeTwoParts | mhu-sop-api/src/main/java/de/mhus/osgi/sop/api/operation/OperationAddress.java:113-119 | with a version and two parts the composed text is provider://path:version/first/second |
| Addressing.BareAddressExample | mhu-sop-api/src/main/java/de/mhus/osgi/sop/api/operation/OperationAddress.java:41-65 | a bare path has the default provider, no version and no parts |
| Exceptions.FromCode | mhu-sop-api/src/main/java/de/mhus/osgi/sop/api/operation/OperationException.java:24-26 | stores the code, message "" and no caption or cause |
| Exceptions.WithMessage | mhu-sop-api/src/main/java/de/mhus/osgi/sop/api/operation/OperationException.java:28-30 | stores code and message, with no caption or cause |
| Exceptions.WithCause | mhu-sop-api/src/main/java/de/mhus/osgi/sop/api/operation/OperationException.java:32-35 | stores code, message and cause, and leaves the caption null |
| Exceptions.WithCaption | mhu-sop-api/src/main/java/de/mhus/osgi/sop/api/operation/OperationException.java:37-39 | stores code, message and caption, with no cause |
| Exceptions.WithCaptionAndCause | mhu-sop-api/src/main/java/de/mhus/osgi/sop/api/operation/OperationException.java:41-45 | stores code, message, caption and cause |
| Exceptions.ToString | mhu-sop-api/src/main/java/de/mhus/osgi/sop/api/operation/OperationException.java:51-54 | `toString`: the return code in decimal, a space and the Throwable text; ToStringDecodes and ToStringInjective prove it decodable |
| Exceptions.ToStringDecodes | mhu-sop-api/src/main/java/de/mhus/osgi/sop/api/operation/OperationException.java:51-54 | the text before the first space reads back as the return code, and the text after it is the Throwable text |
| Exceptions.ToStringInjective | mhu-sop-api/src/main/java/de/mhus/osgi/sop/api/operation/OperationException.java:51-54 | equal renderings come from exceptions with equal return code and message |
| Registry.JavaCompare | mhu-sop-api/src/main/java/de/mhus/osgi/sop/api/registry/RegistryValue.java:64-67 | `String.compareTo` on paths: the first differing character, else the length difference; the Compare lemmas prove it a total order that is 0 exactly on equal strings |
| Registry.CompareZero | mhu-sop-api/src/main/java/de/mhus/osgi/sop/api/registry/RegistryValue.java:64-67 | `String.compareTo` is 0 exactly for equal strings |
| Registry.CompareAntisymmetric | mhu-sop-api/src/main/java/de/mhus/osgi/sop/api/registry/RegistryValue.java:64-67 | swapping the operands negates the comparison |
| Registry.CompareNegative | mhu-sop-api/src/main/java/de/mhus/osgi/sop/api/registry/RegistryValue.java:64-67 | the comparison is negative exactly when the first string is lexicographically smaller (a proper prefix, or smaller at the first difference) |
| Registry.LexLessTail | mhu-sop-api/src/main/java/de/mhus/osgi/sop/api/registry/RegistryValue.java:64-67 | lexicographic order on strings with a common first character is that of their tails |
| Registry.CompareTransitive | mhu-sop-api/src/main/java/de/mhus/osgi/sop/api/registry/RegistryValue.java:64-67 | the order is transitive |
| Registry.SplitPath | mhu-sop-api/src/main/java/de/mhus/osgi/sop/api/registry/RegistryValue.java:26-33 | with '@' the location is the '@'-free text before the first '@' and location + "@" + name is the path; without it the location is the path and there is no name |
| Registry.SplitPathUnique | mhu-sop-api/src/main/java/de/mhus/osgi/sop/api/registry/RegistryValue.java:26-29 | an '@'-free location, '@' and a name split back into exactly that location and name |
| Registry.RegistryValue.constructor | mhu-sop-api/src/main/java/de/mhus/osgi/sop/api/registry/RegistryValue.java:17-34 | keeps every argument, is local exactly when the source is the local-source name, splits the path at its first '@' and starts with no remote value |
| Registry.RegistryValue.CompareTo | mhu-sop-api/src/main/java/de/mhus/osgi/sop/api/registry/RegistryValue.java:64-67 | depends on the paths only: 0 exactly for equal paths, negative exactly when the path is lexicographically smaller, antisymmetric |
| Registry.RegistryValue.GetRemoteValue | mhu-sop-api/src/main/java/de/mhus/osgi/sop/api/registry/RegistryValue.java:73-75 | returns the remote value last set |
| Registry.RegistryValue.SetRemoteValue | mhu-sop-api/src/main/java/de/mhus/osgi/sop/api/registry/RegistryValue.java:77-79 | sets the remote value and changes nothing else |
| Descriptors.KeyOrder | mhu-sop-core/src/main/java/de/mhus/osgi/sop/impl/operation/OperationApiImpl.java:131-135 | iterating a hash map's key set lists every key exactly once |
| LocalProvider.TagStringRoundTrip | mhu-sop-core/src/main/java/de/mhus/osgi/sop/impl/operation/LocalOperationsProvider.java:110-121 | a ';'-joined tag string, as a `tags` property or a TAGS parameter, contributes exactly its tags |
| LocalProvider.SplitTagsHaveNoSeparator | mhu-sop-core/src/main/java/de/mhus/osgi/sop/impl/operation/LocalOperationsProvider.java:110-121 | a tag taken from a string source holds no ';' |
| LocalProvider.ResolvedAcl | mhu-sop-core/src/main/java/de/mhus/osgi/sop/impl/operation/LocalOperationsProvider.java:123-132 | the stored ACL is the tag default (or "") without an AccessApi or when it throws, and the AccessApi's answer otherwise |
| LocalProvider.LocalAddressParts | mhu-sop-core/src/main/java/de/mhus/osgi/sop/impl/operation/LocalOperationsProvider.java:133 | a local descriptor's address names the local provider and its own path and version, without parts |
| LocalProvider.AddAll | mhu-sop-core/src/main/java/de/mhus/osgi/sop/impl/operation/LocalOperationsProvider.java:108-121 | the tag loop adds every item to the set |
| LocalProvider.CollectTags | mhu-sop-core/src/main/java/de/mhus/osgi/sop/impl/operation/LocalOperationsProvider.java:105-121 | the tag set is the union of the `tags` property (array items or a ';'-split string) and the ';'-split TAGS parameter |
| LocalProvider.LocalOperationsProvider.constructor | mhu-sop-core/src/main/java/de/mhus/osgi/sop/impl/operation/LocalOperationsProvider.java:61 | starts with an empty, well-formed register |
| LocalProvider.LocalOperationsProvider.CreateDescriptor | mhu-sop-core/src/main/java/de/mhus/osgi/sop/impl/operation/LocalOperationsProvider.java:104-134 | builds the descriptor from the tag union, the resolved ACL and the local address, fit to be stored under the service's key |
| LocalProvider.LocalOperationsProvider.AddingService | mhu-sop-core/src/main/java/de/mhus/osgi/sop/impl/operation/LocalOperationsProvider.java:84-102 | a service with a description and path is stored under `path:versionString`, replacing an earlier entry (reported as a warning); any other service changes nothing |
| LocalProvider.LocalOperationsProvider.ModifiedService | mhu-sop-core/src/main/java/de/mhus/osgi/sop/impl/operation/LocalOperationsProvider.java:137-152 | a registrable service overwrites its key; any other changes nothing; the register stays well-formed |
| LocalProvider.LocalOperationsProvider.RemovedService | mhu-sop-core/src/main/java/de/mhus/osgi/sop/impl/operation/LocalOperationsProvider.java:155-168 | a registrable service's key is removed, an absent key being a no-op; any other changes nothing |
| LocalProvider.LocalOperationsProvider.CollectOperations | mhu-sop-core/src/main/java/de/mhus/osgi/sop/impl/operation/LocalOperationsProvider.java:173-180 | keeps the caller's list and appends, in hash order, the register values that match; a descriptor is appended exactly when it is a matching register value |
| LocalProvider.LocalOperationsProvider.ExecuteFirstMatch | mhu-sop-core/src/main/java/de/mhus/osgi/sop/impl/operation/LocalOperationsProvider.java:183-196 | runs a matching register value, or answers NotFound when none matches |
| LocalProvider.LocalOperationsProvider.GetOperation | mhu-sop-core/src/main/java/de/mhus/osgi/sop/impl/operation/LocalOperationsProvider.java:263-269 | the entry under the address's `path:versionString`, and NotFound exactly when there is none |
| LocalProvider.LocalOperationsProvider.Synchronize | mhu-sop-core/src/main/java/de/mhus/osgi/sop/impl/operation/LocalOperationsProvider.java:272-274 | leaves the register as it is |
| LocalProvider.MatchingSnoc | mhu-sop-core/src/main/java/de/mhus/osgi/sop/impl/operation/LocalOperationsProvider.java:175-178 | one more key walked appends its value exactly when it matches |
| LocalProvider.MatchingMember | mhu-sop-core/src/main/java/de/mhus/osgi/sop/impl/operation/LocalOperationsProvider.java:175-178 | a descriptor is collected exactly when it is the matching value of a walked key |
| LocalProvider.MatchingValues | mhu-sop-core/src/main/java/de/mhus/osgi/sop/impl/operation/LocalOperationsProvider.java:175-178 | over all keys, the collected descriptors are exactly the matching register values |
| LocalProvider.LocalOperationsProvider.ResolveHandle | mhu-sop-core/src/main/java/de/mhus/osgi/sop/impl/operation/LocalOperationsProvider.java:200-214 | the descriptor's own callable when it has one; every failure is NotFound (ExecuteNotFound, StoredResolvesWithoutHandle) |
| LocalProvider.AccessCheck | mhu-sop-core/src/main/java/de/mhus/osgi/sop/impl/operation/LocalOperationsProvider.java:216-227 | every refusal is AccessDenied (AccessCheckCases gives both directions) |
| LocalProvider.OutcomeResult | mhu-sop-core/src/main/java/de/mhus/osgi/sop/impl/operation/LocalOperationsProvider.java:229-239 | a failure exactly when the operation raised an Error; a completed call keeps its result; an OperationException or other exception becomes an unsuccessful result, the latter with the internal-error code |
| LocalProvider.LocalOperationsProvider.Execute | mhu-sop-core/src/main/java/de/mhus/osgi/sop/impl/operation/LocalOperationsProvider.java:199-240 | doExecute(descriptor): fails only with NotFound, AccessDenied or an unexpected error (ExecuteNotFound, DeniedNeverInvokes, OperationExceptionBecomesResult) |
| LocalProvider.ExecuteNotFound | mhu-sop-core/src/main/java/de/mhus/osgi/sop/impl/operation/LocalOperationsProvider.java:199-214 | execution fails with NotFound exactly when no callable resolves; without a callable, another provider's descriptor is "description is from another provider" |
| LocalProvider.DeniedNeverInvokes | mhu-sop-core/src/main/java/de/mhus/osgi/sop/impl/operation/LocalOperationsProvider.java:216-227 | a refused access check fails with AccessDenied whatever the operation would do, so it is never invoked |
| LocalProvider.AccessCheckCases | mhu-sop-core/src/main/java/de/mhus/osgi/sop/impl/operation/LocalOperationsProvider.java:216-227 | the call goes through exactly when the AccessApi says yes, or there is none and relaxed mode is on; every refusal is AccessDenied |
| LocalProvider.ExecuteIgnoresStoredAcl | mhu-sop-core/src/main/java/de/mhus/osgi/sop/impl/operation/LocalOperationsProvider.java:219 | execution does not depend on the ACL stored at registration |
| LocalProvider.OperationExceptionBecomesResult | mhu-sop-core/src/main/java/de/mhus/osgi/sop/impl/operation/LocalOperationsProvider.java:229-235 | an OperationException is answered as an unsuccessful result with its message, caption and return code |
| LocalProvider.StoredResolvesWithoutHandle | mhu-sop-core/src/main/java/de/mhus/osgi/sop/impl/operation/LocalOperationsProvider.java:204-211 | a stored descriptor without its callable is resolved through its register entry |
| LocalProvider.LookupByOwnAddress | mhu-sop-core/src/main/java/de/mhus/osgi/sop/impl/operation/LocalOperationsProvider.java:263-269 | a stored operation is found by its own address when the version renders back unchanged |
| Aggregator.Found | mhu-sop-core/src/main/java/de/mhus/osgi/sop/impl/operation/OperationApiImpl.java:150-160 | what the providers contribute, in order; FoundAppend, FoundMember and FoundEmpty prove it the concatenation |
| Aggregator.FirstFound | mhu-sop-core/src/main/java/de/mhus/osgi/sop/impl/operation/OperationApiImpl.java:163-175 | the first descriptor found, or NotFound; FirstFoundIsFirstContributor proves it the first item of the first contributing provider |
| Aggregator.FirstAnswer | mhu-sop-core/src/main/java/de/mhus/osgi/sop/impl/operation/OperationApiImpl.java:178-187 | the first answer that is not NotFound; FirstAnswerSpec states both directions |
| Aggregator.FoundAppend | mhu-sop-core/src/main/java/de/mhus/osgi/sop/impl/operation/OperationApiImpl.java:150-160 | discovery over two runs of providers is the concatenation of both |
| Aggregator.FoundMember | mhu-sop-core/src/main/java/de/mhus/osgi/sop/impl/operation/OperationApiImpl.java:150-160 | a descriptor is found exactly when some provider contributed it, whether or not it threw |
| Aggregator.FoundStep | mhu-sop-core/src/main/java/de/mhus/osgi/sop/impl/operation/OperationApiImpl.java:153-158 | asking one more provider appends its contribution |
| Aggregator.FoundEmpty | mhu-sop-core/src/main/java/de/mhus/osgi/sop/impl/operation/OperationApiImpl.java:150-160 | nothing is found exactly when no provider contributes |
| Aggregator.FirstContributor | mhu-sop-core/src/main/java/de/mhus/osgi/sop/impl/operation/OperationApiImpl.java:163-175 | the first descriptor found is the first of the first provider that contributes anything |
| Aggregator.FirstFoundIsFirstContributor | mhu-sop-core/src/main/java/de/mhus/osgi/sop/impl/operation/OperationApiImpl.java:163-175 | findOperation fails exactly when no provider contributes, and otherwise answers the first item of the first contributing provider |
| Aggregator.FirstFoundPrefix | mhu-sop-core/src/main/java/de/mhus/osgi/sop/impl/operation/OperationApiImpl.java:171-172 | once a prefix of the providers found something, the later providers do not change the answer |
| Aggregator.FirstAnswerSpec | mhu-sop-core/src/main/java/de/mhus/osgi/sop/impl/operation/OperationApiImpl.java:178-187 | NotFound exactly when every provider raised NotFound, and then with the aggregator's reason; otherwise the answer of the first provider that did not |
| Aggregator.ListedValues | mhu-sop-core/src/main/java/de/mhus/osgi/sop/impl/operation/OperationApiImpl.java:137-141 | the value under each enumerated key lists every provider in the map |
| Aggregator.OperationApiImpl.constructor | mhu-sop-core/src/main/java/de/mhus/osgi/sop/impl/operation/OperationApiImpl.java:40 | starts with no provider |
| Aggregator.OperationApiImpl.AddingService | mhu-sop-core/src/main/java/de/mhus/osgi/sop/impl/operation/OperationApiImpl.java:78-92 | a provider is stored under String.valueOf of its name property, replacing an earlier one (reported); a null service changes nothing |
| Aggregator.OperationApiImpl.ModifiedService | mhu-sop-core/src/main/java/de/mhus/osgi/sop/impl/operation/OperationApiImpl.java:95-107 | a provider overwrites its name's entry; a null service changes nothing |
| Aggregator.OperationApiImpl.RemovedService | mhu-sop-core/src/main/java/de/mhus/osgi/sop/impl/operation/OperationApiImpl.java:110-121 | deletes that name only; a null service changes nothing |
| Aggregator.OperationApiImpl.GetProvider | mhu-sop-core/src/main/java/de/mhus/osgi/sop/impl/operation/OperationApiImpl.java:125-129 | the provider under the name, and none exactly when the name is unregistered |
| Aggregator.OperationApiImpl.GetProviderNames | mhu-sop-core/src/main/java/de/mhus/osgi/sop/impl/operation/OperationApiImpl.java:131-135 | every registered name exactly once |
| Aggregator.OperationApiImpl.GetProviders | mhu-sop-core/src/main/java/de/mhus/osgi/sop/impl/operation/OperationApiImpl.java:137-141 | one provider per registered name; a provider is listed exactly when it is registered |
| Aggregator.OperationApiImpl.GetOperation | mhu-sop-core/src/main/java/de/mhus/osgi/sop/impl/operation/OperationApiImpl.java:144-147 | asks the provider the address names; an unregistered one is a NullPointer failure, not NotFound |
| Aggregator.OperationApiImpl.FindOperations | mhu-sop-core/src/main/java/de/mhus/osgi/sop/impl/operation/OperationApiImpl.java:150-160 | the concatenation, in snapshot order, of what each provider of a snapshot of the register contributes |
| Aggregator.OperationApiImpl.FindOperation | mhu-sop-core/src/main/java/de/mhus/osgi/sop/impl/operation/OperationApiImpl.java:163-175 | the first descriptor discovery over a snapshot finds, or NotFound |
| Aggregator.OperationApiImpl.ExecuteMatching | mhu-sop-core/src/main/java/de/mhus/osgi/sop/impl/operation/OperationApiImpl.java:178-187 | the first answer of a snapshot's providers that is not NotFound, else NotFound |
| Aggregator.OperationApiImpl.Execute | mhu-sop-core/src/main/java/de/mhus/osgi/sop/impl/operation/OperationApiImpl.java:190-194 | routes to the provider the descriptor names; an unregistered name is NotFound |
| Aggregator.OperationApiImpl.Synchronize | mhu-sop-core/src/main/java/de/mhus/osgi/sop/impl/operation/OperationApiImpl.java:197-205 | every provider of a snapshot is called, in order; the call to each is recorded with whether it threw, so a throwing provider does not stop the later ones |
| JmsRegister.Ident | mhu-sop-jms/src/main/java/de/mhus/osgi/sop/jms/operation/JmsRegisterServer.java:76 | the register key `connection,queue,path,version`, null parts written "null" |
| JmsRegister.RemoteAddress | mhu-sop-jms/src/main/java/de/mhus/osgi/sop/jms/operation/JmsRegisterServer.java:79 | the address `jms://path:version/queue/connection`; RemoteAddressParts proves what it parses to |
| JmsRegister.RemoteTags | mhu-sop-jms/src/main/java/de/mhus/osgi/sop/jms/operation/JmsRegisterServer.java:83 | the ','-split tag field, none when it is missing; no tag holds a ',' |
| JmsRegister.NewEntry | mhu-sop-jms/src/main/java/de/mhus/osgi/sop/jms/operation/JmsRegisterServer.java:78-85 | the entry created for a new announcement; NewEntryFromQueue proves its path, title, ACL, callable and queue |
| JmsRegister.UpsertOne | mhu-sop-jms/src/main/java/de/mhus/osgi/sop/jms/operation/JmsRegisterServer.java:76-86 | one loop turn: the announced ident joins the register's keys with this stamp, and every other entry is unchanged |
| JmsRegister.Stale | mhu-sop-jms/src/main/java/de/mhus/osgi/sop/jms/operation/JmsRegisterServer.java:89-91 | the removeIf condition: the entry belongs to the queue and predates `now` |
| JmsRegister.Swept | mhu-sop-jms/src/main/java/de/mhus/osgi/sop/jms/operation/JmsRegisterServer.java:89-92 | the register without the stale entries of the queue; AnnounceReplaces and FullReplace build on it |
| JmsRegister.AnnouncementAt | mhu-sop-jms/src/main/java/de/mhus/osgi/sop/jms/operation/JmsRegisterServer.java:70-73 | the i-th announcement is the fields `operation{i}`, `version{i}`, `tags{i}` and `title{i}`, a missing one as null |
| JmsRegister.Announcements | mhu-sop-jms/src/main/java/de/mhus/osgi/sop/jms/operation/JmsRegisterServer.java:69-87 | the first n announcements, one per index |
| JmsRegister.JmsRegisterServer.constructor | mhu-sop-jms/src/main/java/de/mhus/osgi/sop/jms/operation/JmsRegisterServer.java:25-27 | starts with an empty register and no request seen |
| JmsRegister.JmsRegisterServer.ReceivedOneWay | mhu-sop-jms/src/main/java/de/mhus/osgi/sop/jms/operation/JmsRegisterServer.java:51-96 | a non-map message or one from this node's queue changes nothing. A request records the time and asks for one re-announcement. An announce reads operations up to the first missing index, upserts them and sweeps the announcing queue's stale entries. Any other type changes nothing |
| JmsRegister.JmsRegisterServer.Announce | mhu-sop-jms/src/main/java/de/mhus/osgi/sop/jms/operation/JmsRegisterServer.java:69-87 | the register after upserting every announcement up to the first missing one |
| JmsRegister.JmsRegisterServer.Sweep | mhu-sop-jms/src/main/java/de/mhus/osgi/sop/jms/operation/JmsRegisterServer.java:89-92 | removes exactly the stale entries of the queue, or fails, after removing some of them, exactly when an entry has no address part |
| JmsRegister.SweepAll | mhu-sop-jms/src/main/java/de/mhus/osgi/sop/jms/operation/JmsRegisterServer.java:89-92 | the removeIf loop: the full sweep, or a partial one that fails exactly when some entry lacks address parts |
| JmsRegister.SweptWhenDone | mhu-sop-jms/src/main/java/de/mhus/osgi/sop/jms/operation/JmsRegisterServer.java:89-92 | a partial sweep that decided every entry is the full sweep |
| JmsRegister.AnnounceAll | mhu-sop-jms/src/main/java/de/mhus/osgi/sop/jms/operation/JmsRegisterServer.java:65-87 | the loop stops at the first missing `operation{i}`, having upserted the announcements before it in order |
| JmsRegister.AnnounceStep | mhu-sop-jms/src/main/java/de/mhus/osgi/sop/jms/operation/JmsRegisterServer.java:69-87 | one more turn of the loop upserts the next announcement |
| JmsRegister.UpsertAllSnoc | mhu-sop-jms/src/main/java/de/mhus/osgi/sop/jms/operation/JmsRegisterServer.java:69-87 | one more announcement is one more upsert on the register so far |
| JmsRegister.NamesBelowIndices | mhu-sop-jms/src/main/java/de/mhus/osgi/sop/jms/operation/JmsRegisterServer.java:69 | each field name `operation{j}` with j < n carries its index j after the prefix |
| JmsRegister.NamesBelowPresent | mhu-sop-jms/src/main/java/de/mhus/osgi/sop/jms/operation/JmsRegisterServer.java:69 | n present announcements are n distinct fields of the message |
| JmsRegister.FreshName | mhu-sop-jms/src/main/java/de/mhus/osgi/sop/jms/operation/JmsRegisterServer.java:69 | `operation{n}` is none of the earlier field names |
| JmsRegister.AnnouncementBound | mhu-sop-jms/src/main/java/de/mhus/osgi/sop/jms/operation/JmsRegisterServer.java:69-75 | a message with n announcements has at least n fields, so the loop ends |
| JmsRegister.AnnouncedIdentsSnoc | mhu-sop-jms/src/main/java/de/mhus/osgi/sop/jms/operation/JmsRegisterServer.java:76 | the idents of a longer list of announcements are those of the shorter one and the last one's |
| JmsRegister.UpsertAllKeys | mhu-sop-jms/src/main/java/de/mhus/osgi/sop/jms/operation/JmsRegisterServer.java:76-85 | an announce adds exactly the announced idents to the register's keys |
| JmsRegister.UpsertAllStamps | mhu-sop-jms/src/main/java/de/mhus/osgi/sop/jms/operation/JmsRegisterServer.java:86 | every announced entry carries this announce's stamp |
| JmsRegister.UpsertAllKeeps | mhu-sop-jms/src/main/java/de/mhus/osgi/sop/jms/operation/JmsRegisterServer.java:77-86 | an existing entry is kept apart from its stamp, and one not announced is left exactly as it was |
| JmsRegister.UpsertAllCreates | mhu-sop-jms/src/main/java/de/mhus/osgi/sop/jms/operation/JmsRegisterServer.java:78-86 | an entry that was absent is created from an announcement stored under its ident and stamped |
| JmsRegister.AnnounceReplaces | mhu-sop-jms/src/main/java/de/mhus/osgi/sop/jms/operation/JmsRegisterServer.java:68-92 | after an announce stamped no earlier than `now`, every announced entry is present and freshly stamped, and an unannounced entry stays, unchanged, exactly when it is not a stale entry of the announcing queue |
| JmsRegister.FullReplace | mhu-sop-jms/src/main/java/de/mhus/osgi/sop/jms/operation/JmsRegisterServer.java:68-92 | when every earlier entry predates `now`, what is left of the announcing queue is exactly what it announced; an empty announce purges the queue |
| JmsRegister.RemoteAddressParts | mhu-sop-jms/src/main/java/de/mhus/osgi/sop/jms/operation/JmsRegisterServer.java:79 | the address `jms://path:version/queue/connection` reads back as the JMS provider, the path, the version text and the parts queue and connection |
| JmsRegister.NewEntryFromQueue | mhu-sop-jms/src/main/java/de/mhus/osgi/sop/jms/operation/JmsRegisterServer.java:78-83 | a created entry has the announced path and title, no ACL or callable, and belongs to the announcing queue when it is named |
| JmsRegister.WithdrawnOperationDropped | mhu-sop-jms/src/main/java/de/mhus/osgi/sop/jms/operation/JmsRegisterServer.java:68-92 | operations A and B announced, then only A: the later sweep drops B and keeps A with the later stamp |
| JmsChannel.ChannelServer.constructor | mhu-sop-jms/src/main/java/de/mhus/osgi/sop/jms/operation/Jms2LocalOperationExecuteChannel.java:59 | stands for the server object `getServer()` returns, whose code is not part of this model: a server holding the given inbound interceptor |
| JmsChannel.PublicName | mhu-sop-jms/src/main/java/de/mhus/osgi/sop/jms/operation/Jms2LocalOperationExecuteChannel.java:92 | the catalog entry `path:versionString`; PublicNamesMember proves the catalog holds exactly these names |
| JmsChannel.PublicNames | mhu-sop-jms/src/main/java/de/mhus/osgi/sop/jms/operation/Jms2LocalOperationExecuteChannel.java:89-97 | the catalog is no longer than the descriptor list |
| JmsChannel.PublicNamesMember | mhu-sop-jms/src/main/java/de/mhus/osgi/sop/jms/operation/Jms2LocalOperationExecuteChannel.java:89-92 | an entry is in the catalog exactly when it is `path:versionString` of a listed descriptor not owned by the JMS provider |
| JmsChannel.PublicNamesAppend | mhu-sop-jms/src/main/java/de/mhus/osgi/sop/jms/operation/Jms2LocalOperationExecuteChannel.java:87-99 | the catalog keeps the aggregator's order: that of a concatenation is the concatenation of catalogs |
| JmsChannel.PublicNamesSkipJms | mhu-sop-jms/src/main/java/de/mhus/osgi/sop/jms/operation/Jms2LocalOperationExecuteChannel.java:90 | a descriptor of the JMS provider contributes nothing, wherever it stands |
| JmsChannel.PublicNamesAllForeign | mhu-sop-jms/src/main/java/de/mhus/osgi/sop/jms/operation/Jms2LocalOperationExecuteChannel.java:89-92 | without JMS descriptors the catalog lists every descriptor's name, position by position |
| JmsChannel.Publish | mhu-sop-jms/src/main/java/de/mhus/osgi/sop/jms/operation/Jms2LocalOperationExecuteChannel.java:87-99 | the loop yields the catalog of the list |
| JmsChannel.Jms2LocalOperationExecuteChannel.constructor | mhu-sop-jms/src/main/java/de/mhus/osgi/sop/jms/operation/Jms2LocalOperationExecuteChannel.java:30 | a channel over the given server, JMS provider name and aggregator |
| JmsChannel.Jms2LocalOperationExecuteChannel.DoAfterReset | mhu-sop-jms/src/main/java/de/mhus/osgi/sop/jms/operation/Jms2LocalOperationExecuteChannel.java:57-61 | installs ticket access when a server exists without an interceptor, and never replaces an existing one |
| JmsChannel.Jms2LocalOperationExecuteChannel.GetPublicOperations | mhu-sop-jms/src/main/java/de/mhus/osgi/sop/jms/operation/Jms2LocalOperationExecuteChannel.java:86-100 | the catalog of what the aggregator finds for "*" over a snapshot of its providers |
| JmsChannel.Jms2LocalOperationExecuteChannel.DoExecute | mhu-sop-jms/src/main/java/de/mhus/osgi/sop/jms/operation/Jms2LocalOperationExecuteChannel.java:74-83 | the aggregator's execution by path and version with no tags, answered unchanged |
| JmsChannel.Jms2LocalOperationExecuteChannel.GetOperationDescription | mhu-sop-jms/src/main/java/de/mhus/osgi/sop/jms/operation/Jms2LocalOperationExecuteChannel.java:102-108 | the aggregator's findOperation answer, with its NotFound passed on |

## Left out

- OSGi component activation, service tracking and `MApi.lookup`: these are not modelled. Tracker callbacks are plain methods, and looked-up services (the AccessApi) are optional inputs.
- The `Operation` services themselves are not modelled. Their `doExecute` is an `invoke` parameter returning how the call ended.
- `OperationUtil.matches` and `OperationUtil.getOption`, `Version` and `VersionRange`: their code is not shown. They are the `Env` fields `matches`, `aclOption` and `versionText`. No matching or version semantics is assumed, and a query carries the version range as opaque text. The address keeps the version token the parser cut out (`new Version(token)`).
- The AccessApi decisions and the current account: oracles. `getResourceAccessAcl` and `hasResourceAccess` are functions of path and ACL.
- The other providers' behaviour: the aggregator's properties hold for any `Providers` behaviour. A throwing `collectOperations` is modelled by the items it appended before throwing.
- Logging and warnings are left out. `warned` only reports that an earlier entry was replaced.
- Concurrency and `synchronized` blocks: each locked method is one atomic method, with no interleaving.
- The clock: `System.currentTimeMillis()` is a parameter. `ReceivedOneWay` takes the time a request is recorded at, the `now` captured before the announce loop, and a single stamp for every entry of that announce. The source reads the clock once per entry, later than `now`.
- The JMS transport, `sendLocalOperations` and `TicketAccessInterceptor` are not modelled. A request only counts one re-announcement (`reannouncements`), and the interceptor is a tag value.
- The timer scheduling of the aggregator (OperationApiImpl.java:52-60) and the channel's `doActivate` configuration switch (Jms2LocalOperationExecuteChannel.java:37-42) are not modelled. The channel's queue name (line 32) is the `ownQueue` of the register server's `Node`.
- The two JMS provider-name constants are separate parameters: the register server's `JmsOperationProvider.PROVIDER_NAME` and the channel's `JmsOperationApiImpl.PROVIDER_NAME`. Their values are not shown.
- JmsRegister.NewEntry: `JmsOperationDescriptor` is not part of this model. The entry takes its path from the address, its version string from the address's version, no ACL and no callable. The unused `form{i}` field (line 74) and the form transformation (lines 81-82) are not modelled.
- JmsRegister.RemoteTags: a null tag field gives an empty tag set rather than a null list. The list's order and duplicates are kept as a set.
- Null arguments that throw NullPointerException are not modelled: `new OperationAddress(null)` (OperationAddress.java:37), a null path given to `RegistryValue` (RegistryValue.java:26), and a null item of a `String[]` tags property, which `TreeSet.add` rejects so that the service is not registered (LocalOperationsProvider.java:109). Strings and their sequences cannot hold null, so `create` cannot receive a null part either, which the source appends as "null" (OperationAddress.java:118).
- The announce loop's `int` counter `cnt` is unbounded. Overflow after 2^31 fields is not modelled.
- JmsRegister.JmsRegisterServer.Announce and Sweep: each builds the new register on a local copy and assigns it once. The source mutates the shared map entry by entry, and, in place, the `lastUpdated` of descriptors other objects may alias.
- JmsRegister.WithdrawnOperationDropped: stated for any entry maker that files B under the announcing queue. This node's maker does so whenever the queue, path, version and connection compose (NewEntryFromQueue).
- Descriptors are values. Aliasing of one descriptor object between registers, and the caller's list that `collectOperations` appends to in place, are passed by value.
- The `try`/`catch` of `getPublicOperations` (lines 91-95): building `path:versionString` cannot throw in the model. The `null` check of `getOperationDescription` (line 106) cannot arise either, because a non-null answer is returned.
- `RegistryValue.compareTo` compares strings of Dafny characters. Java compares UTF-16 code units, which only differs outside the Basic Multilingual Plane. The plain getters of `RegistryValue` (lines 36-62, 69-71, 81-87) are its fields.
- `Throwable.toString` uses `getLocalizedMessage`, modelled as the message. The cause is kept only by its rendered text.
- Exceptions.ToString: the class name is fixed to `OperationException`. The class is not final (OperationException.java:18), and `Throwable.toString` prints the runtime class name, so a subclass would print its own name.
- `OperationAddress.getVersion`/`getVersionString` (lines 73-75, 107-110) rely on `Version`, which is not part of this model. `getVersionString` is `Env.versionText` of the token. `getPart` outside the parts is a precondition, because the source throws.
- `LocalOperationDescriptor` (LocalOperationsProvider.java:242-260) is a descriptor whose `handle` is its operation. Its `adaptTo` is not modelled.
- The shared remote register and `lastRegistryRequest` live in `JmsApiImpl`, which is not part of this model. The register server holds them as fields.
