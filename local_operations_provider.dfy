/**
 * LocalOperationsProvider: the register of the operation services running on
 * this node, keyed `path:versionString`, filled by the service tracker's
 * add/modify/remove callbacks, searched by the aggregator and executed after
 * an access check.
 */
module LocalProvider {
  import opened Wrappers
  import opened Strings
  import opened Addressing
  import opened Exceptions
  import opened Descriptors

  const PROVIDER_NAME := "local"

  /** The `tags` property of a service reference: a string array, a string, something else, or absent. */
  datatype RefTags = NoTags | TagArray(items: seq<string>) | TagString(text: string) | OtherTags

  datatype ServiceRef = ServiceRef(tags: RefTags)

  /** A tracked operation service: its identity and its (possibly missing) description. */
  datatype Service = Service(handle: Handle, description: Option<Description>)

  /** An answer of the access service, or the fact that asking it threw. */
  datatype Answer<T> = Answered(value: T) | Threw

  /**
   * The two AccessApi questions the provider asks, both for the current
   * account, resource kind "local.operation" and action "execute":
   * the resource ACL of a path given a default, and whether a path may be
   * executed under an ACL.
   */
  datatype AccessApi = AccessApi(
    resourceAcl: (string, string) -> Answer<Option<string>>,
    hasAccess: (string, string) -> Answer<bool>)

  /** The tags a reference property contributes. */
  function RefTagItems(t: RefTags): set<string> {
    match t
    case TagArray(items) => Elements(items)
    case TagString(text) => Elements(JavaSplit(text, ';'))
    case _ => {}
  }

  /** The tags the description's TAGS parameter contributes. */
  function ParamTagItems(parameter: Option<string>): set<string> {
    match parameter
    case None => {}
    case Some(text) => Elements(JavaSplit(text, ';'))
  }

  /** The descriptor's tag set: the union of both sources. */
  function TagsOf(ref: ServiceRef, desc: Description): set<string> {
    RefTagItems(ref.tags) + ParamTagItems(desc.tagsParameter)
  }

  /** A ';'-joined tag string contributes exactly its tags. */
  lemma TagStringRoundTrip(tags: seq<string>)
    requires |tags| >= 1 && tags[|tags| - 1] != ""
    requires forall k :: 0 <= k < |tags| ==> ';' !in tags[k]
    ensures RefTagItems(TagString(Join(tags, ';'))) == Elements(tags)
    ensures ParamTagItems(Some(Join(tags, ';'))) == Elements(tags)
  {
    JavaSplitJoin(tags, ';');
  }

  /** No tag taken from a string source contains the separator. */
  lemma SplitTagsHaveNoSeparator(ref: ServiceRef, desc: Description, t: string)
    requires ref.tags.TagString? || ref.tags.NoTags? || ref.tags.OtherTags?
    requires t in TagsOf(ref, desc)
    ensures ';' !in t
  {
    if ref.tags.TagString? {
      JavaSplitPieces(ref.tags.text, ';');
    }
    if desc.tagsParameter.Some? {
      JavaSplitPieces(desc.tagsParameter.value, ';');
    }
  }

  /** The ACL a tag set asks for by default: its TAG_DEFAULT_ACL option, or "". */
  function DefaultAcl(tags: set<string>, env: Env): string {
    env.aclOption(tags).GetOr("")
  }

  /** The ACL stored at registration: the AccessApi's answer when it gives one, else the default. */
  function ResolvedAcl(path: string, tags: set<string>, aaa: Option<AccessApi>, env: Env): (acl: Option<string>)
    ensures aaa.None? ==> acl == Some(DefaultAcl(tags, env))
    ensures aaa.Some? && aaa.value.resourceAcl(path, DefaultAcl(tags, env)).Threw? ==> acl == Some(DefaultAcl(tags, env))
    ensures aaa.Some? && aaa.value.resourceAcl(path, DefaultAcl(tags, env)).Answered?
      ==> acl == aaa.value.resourceAcl(path, DefaultAcl(tags, env)).value
  {
    var fallback := DefaultAcl(tags, env);
    match aaa
    case None => Some(fallback)
    case Some(api) =>
      match api.resourceAcl(path, fallback)
      case Answered(a) => a
      case Threw => Some(fallback)
  }

  /** The service carries a description with a path, so the tracker registers it. */
  predicate Registrable(service: Option<Service>) {
    service.Some? && service.value.description.Some? && service.value.description.value.path.Some?
  }

  /** The register key of a registrable service. */
  function ServiceKey(service: Option<Service>): string
    requires Registrable(service)
  {
    var desc := service.value.description.value;
    Key(desc.path.value, desc.versionString)
  }

  /** The address of a local operation: `local://path[:version]`. */
  function LocalAddress(path: string, versionString: Option<string>, env: Env): Address {
    Parse(Compose(PROVIDER_NAME, path, versionString, []), env.defaultProvider)
  }

  /** The descriptor createDescriptor builds for a registrable service. */
  function DescriptorFor(ref: ServiceRef, service: Service, aaa: Option<AccessApi>, env: Env): Descriptor
    requires Registrable(Some(service))
  {
    var desc := service.description.value;
    var path := desc.path.value;
    var tags := TagsOf(ref, desc);
    Descriptor(LocalAddress(path, desc.versionString, env), path, desc.versionString, desc.title,
               tags, ResolvedAcl(path, tags, aaa, env), 0, Some(service.handle))
  }

  /** A local descriptor's address names the local provider and its own path and version. */
  lemma LocalAddressParts(path: string, versionString: Option<string>, env: Env)
    requires ComposableSegment(path, versionString)
    ensures var a := LocalAddress(path, versionString, env);
      a.provider == PROVIDER_NAME && a.path == path && a.version == versionString && a.parts == []
  {
    NoColonNoScheme(PROVIDER_NAME);
    RoundTrip(PROVIDER_NAME, path, versionString, [], env.defaultProvider);
  }

  /** Every item of `items` joined to `tags`, one at a time. */
  method AddAll(tags: set<string>, items: seq<string>) returns (r: set<string>)
    ensures r == tags + Elements(items)
  {
    r := tags;
    for i := 0 to |items|
      invariant r == tags + Elements(items[..i])
    {
      assert Elements(items[..i + 1]) == Elements(items[..i]) + {items[i]} by {
        assert items[..i + 1] == items[..i] + [items[i]];
      }
      r := r + {items[i]};
    }
    assert items[..|items|] == items;
  }

  /** Builds the tag set as createDescriptor does. */
  method CollectTags(ref: ServiceRef, desc: Description) returns (tags: set<string>)
    ensures tags == TagsOf(ref, desc)
  {
    tags := {};
    match ref.tags {
      case TagArray(items) =>
        tags := AddAll(tags, items);
      case TagString(text) =>
        tags := AddAll(tags, JavaSplit(text, ';'));
      case _ =>
    }
    if desc.tagsParameter.Some? {
      tags := AddAll(tags, JavaSplit(desc.tagsParameter.value, ';'));
    }
  }

  class LocalOperationsProvider {
    /** The helpers this provider is wired to. */
    const env: Env
    var register: map<string, Descriptor>

    /** Each entry sits under its own key, carries its callable and a local address. */
    ghost predicate StoredWell(k: string, d: Descriptor) {
      k == Key(d.path, d.versionString) && d.handle.Some?
      && d.address == LocalAddress(d.path, d.versionString, env)
    }

    ghost predicate Valid()
      reads this
    {
      forall k :: k in register ==> StoredWell(k, register[k])
    }

    constructor (env: Env)
      ensures this.env == env && register == map[] && Valid()
    {
      this.env := env;
      register := map[];
    }

    /** createDescriptor: the tags, the resolved ACL and the local address of the service's operation. */
    method CreateDescriptor(ref: ServiceRef, service: Service, aaa: Option<AccessApi>) returns (d: Descriptor)
      requires Registrable(Some(service))
      ensures d == DescriptorFor(ref, service, aaa, env)
      ensures StoredWell(ServiceKey(Some(service)), d)
    {
      var desc := service.description.value;
      var path := desc.path.value;
      var tags := CollectTags(ref, desc);
      var acl := ResolvedAcl(path, tags, aaa, env);
      var address := Create(PROVIDER_NAME, Some(path), desc.versionString, [], env.defaultProvider);
      d := Descriptor(address, path, desc.versionString, desc.title, tags, acl, 0, Some(service.handle));
    }

    /**
     * addingService: a registrable service is stored under its key, replacing
     * any earlier entry (`warned` reports that one existed); any other service
     * leaves the register as it was.
     */
    method AddingService(ref: ServiceRef, service: Option<Service>, aaa: Option<AccessApi>) returns (warned: bool)
      requires Valid()
      modifies this
      ensures Valid()
      ensures Registrable(service) ==>
        register == old(register)[ServiceKey(service) := DescriptorFor(ref, service.value, aaa, env)]
        && warned == (ServiceKey(service) in old(register))
      ensures !Registrable(service) ==> register == old(register) && !warned
    {
      warned := false;
      if Registrable(service) {
        var d := CreateDescriptor(ref, service.value, aaa);
        var key := ServiceKey(service);
        warned := key in register;
        register := register[key := d];
      }
    }

    /** modifiedService: a registrable service overwrites its key; others change nothing. */
    method ModifiedService(ref: ServiceRef, service: Option<Service>, aaa: Option<AccessApi>)
      requires Valid()
      modifies this
      ensures Valid()
      ensures Registrable(service) ==>
        register == old(register)[ServiceKey(service) := DescriptorFor(ref, service.value, aaa, env)]
      ensures !Registrable(service) ==> register == old(register)
    {
      if Registrable(service) {
        var d := CreateDescriptor(ref, service.value, aaa);
        register := register[ServiceKey(service) := d];
      }
    }

    /** removedService: a registrable service's key is deleted (absent keys are a no-op). */
    method RemovedService(service: Option<Service>)
      requires Valid()
      modifies this
      ensures Valid()
      ensures Registrable(service) ==> register == old(register) - {ServiceKey(service)}
      ensures !Registrable(service) ==> register == old(register)
    {
      if Registrable(service) {
        register := register - {ServiceKey(service)};
      }
    }

    /**
     * collectOperations: walks the register's values in hash order (`order`)
     * and appends the matching ones to the caller's list.
     */
    method CollectOperations(list: seq<Descriptor>, q: Query) returns (out: seq<Descriptor>, ghost order: seq<string>)
      ensures Enumerates(order, register.Keys)
      ensures out == list + Matching(register, order, q, env.matches)
      ensures forall d :: d in Matching(register, order, q, env.matches) <==> d in register.Values && env.matches(d, q)
    {
      var keys := KeyOrder(register);
      order := keys;
      out := list;
      for i := 0 to |keys|
        invariant out == list + Matching(register, keys[..i], q, env.matches)
      {
        MatchingSnoc(register, keys[..i], keys[i], q, env.matches);
        assert keys[..i + 1] == keys[..i] + [keys[i]];
        if env.matches(register[keys[i]], q) {
          out := out + [register[keys[i]]];
        }
      }
      assert keys[..|keys|] == keys;
      MatchingValues(register, keys, q, env.matches);
    }

    /** Where a descriptor's callable comes from: its own handle, or the register entry under its key. */
    function ResolveHandle(desc: Descriptor): (r: Result<Handle, Failure>)
      reads this
      ensures desc.handle.Some? ==> r == Success(desc.handle.value)
      ensures r.Failure? ==> r.error.NotFound?
    {
      match desc.handle
      case Some(h) => Success(h)
      case None =>
        if desc.Provider() != PROVIDER_NAME then Failure(NotFound("description is from another provider"))
        else
          var key := Key(desc.path, desc.versionString);
          if key in register && register[key].handle.Some? then Success(register[key].handle.value)
          else Failure(NotFound("operation not found"))
    }

    /**
     * doExecute(descriptor): resolves the callable, checks access, invokes it
     * and turns what it raised into a result or a failure.
     */
    function Execute(desc: Descriptor, props: Properties, aaa: Option<AccessApi>, relaxed: bool,
                     invoke: (Handle, Properties) -> InvokeOutcome): (r: Result<OperationResult, Failure>)
      reads this
      ensures r.Failure? ==> r.error.NotFound? || r.error.AccessDenied? || r.error.Unexpected?
    {
      match ResolveHandle(desc)
      case Failure(f) => Failure(f)
      case Success(h) =>
        match AccessCheck(desc, aaa, relaxed, env)
        case Some(f) => Failure(f)
        case None => OutcomeResult(invoke(h, props), env)
    }

    /**
     * doExecute(filter): the first register value in hash order that matches
     * the query (`chosen` names its key) is executed; none matching is NotFound.
     */
    method ExecuteFirstMatch(q: Query, props: Properties, aaa: Option<AccessApi>, relaxed: bool,
                             invoke: (Handle, Properties) -> InvokeOutcome)
      returns (r: Result<OperationResult, Failure>, ghost chosen: Option<string>)
      ensures chosen.None? ==> (forall k :: k in register ==> !env.matches(register[k], q))
                               && r == Failure(NotFound("operation not found"))
      ensures chosen.Some? ==> chosen.value in register && env.matches(register[chosen.value], q)
                               && r == Execute(register[chosen.value], props, aaa, relaxed, invoke)
    {
      var found: Option<Descriptor> := None;
      chosen := None;
      var remaining := register.Keys;
      while remaining != {} && found.None?
        invariant remaining <= register.Keys
        invariant found.None? ==> chosen.None? && forall k :: k in register.Keys - remaining ==> !env.matches(register[k], q)
        invariant found.Some? ==> chosen.Some? && chosen.value in register && found.value == register[chosen.value]
                                  && env.matches(found.value, q)
        decreases |remaining|
      {
        var k :| k in remaining;
        if env.matches(register[k], q) {
          found := Some(register[k]);
          chosen := Some(k);
        }
        remaining := remaining - {k};
      }
      if found.None? {
        r := Failure(NotFound("operation not found"));
      } else {
        r := Execute(found.value, props, aaa, relaxed, invoke);
      }
    }

    /** getOperation: the entry under the address's `path:versionString`, or NotFound. */
    function GetOperation(addr: Address): (r: Result<Descriptor, Failure>)
      reads this
      ensures var key := addr.path + ":" + AddressVersionString(addr, env);
        (r.Success? <==> key in register) && (r.Success? ==> r.value == register[key])
        && (r.Failure? ==> r.error == NotFound("operation not found"))
    {
      var key := addr.path + ":" + AddressVersionString(addr, env);
      if key in register then Success(register[key]) else Failure(NotFound("operation not found"))
    }

    /** synchronize: the local register is always current, so nothing changes. */
    method Synchronize()
      ensures register == old(register)
    {
    }
  }

  /** The register values under `order` that match the query, in that order. */
  function Matching(register: map<string, Descriptor>, order: seq<string>, q: Query,
                    matches: (Descriptor, Query) -> bool): seq<Descriptor>
    requires forall i :: 0 <= i < |order| ==> order[i] in register
    decreases |order|
  {
    if order == [] then []
    else
      var last := order[|order| - 1];
      Matching(register, order[..|order| - 1], q, matches)
      + (if matches(register[last], q) then [register[last]] else [])
  }

  /** One more key walked: its value is appended when it matches. */
  lemma MatchingSnoc(register: map<string, Descriptor>, order: seq<string>, k: string, q: Query,
                     matches: (Descriptor, Query) -> bool)
    requires forall i :: 0 <= i < |order| ==> order[i] in register
    requires k in register
    ensures forall i :: 0 <= i < |order + [k]| ==> (order + [k])[i] in register
    ensures Matching(register, order + [k], q, matches)
         == Matching(register, order, q, matches) + (if matches(register[k], q) then [register[k]] else [])
  {
    assert (order + [k])[..|order|] == order;
  }

  /** A descriptor is collected exactly when it is a matching value under one of the keys. */
  lemma {:induction false} MatchingMember(register: map<string, Descriptor>, order: seq<string>, q: Query,
                                          matches: (Descriptor, Query) -> bool, d: Descriptor)
    requires forall i :: 0 <= i < |order| ==> order[i] in register
    ensures d in Matching(register, order, q, matches)
      <==> exists i :: 0 <= i < |order| && register[order[i]] == d && matches(d, q)
    decreases |order|
  {
    if order != [] {
      var init := order[..|order| - 1];
      MatchingMember(register, init, q, matches, d);
      if exists i :: 0 <= i < |init| && register[init[i]] == d && matches(d, q) {
        var i :| 0 <= i < |init| && register[init[i]] == d && matches(d, q);
        assert order[i] == init[i];
      }
      if exists i :: 0 <= i < |order| && register[order[i]] == d && matches(d, q) {
        var i :| 0 <= i < |order| && register[order[i]] == d && matches(d, q);
        if i < |init| {
          assert init[i] == order[i];
        }
      }
    }
  }

  /** Over an enumeration of the keys, the collected descriptors are exactly the matching values. */
  lemma MatchingValues(register: map<string, Descriptor>, order: seq<string>, q: Query,
                       matches: (Descriptor, Query) -> bool)
    requires Enumerates(order, register.Keys)
    ensures forall i :: 0 <= i < |order| ==> order[i] in register
    ensures forall d :: d in Matching(register, order, q, matches) <==> d in register.Values && matches(d, q)
  {
    forall i | 0 <= i < |order| ensures order[i] in register {
      assert order[i] in order;
    }
    forall d ensures d in Matching(register, order, q, matches) <==> d in register.Values && matches(d, q) {
      MatchingMember(register, order, q, matches, d);
      if d in register.Values && matches(d, q) {
        var k :| k in register && register[k] == d;
        var i :| 0 <= i < |order| && order[i] == k;
      }
    }
  }

  /**
   * The access check of doExecute. With an AccessApi the ACL is recomputed
   * from the descriptor's tags (not the ACL stored at registration), and a
   * refusal or an error both surface as "internal error", because the
   * refusal is raised inside the block that wraps every throwable. Without
   * one, only relaxed mode lets the call through.
   */
  function AccessCheck(desc: Descriptor, aaa: Option<AccessApi>, relaxed: bool, env: Env): (r: Option<Failure>)
    ensures r.Some? ==> r.value.AccessDenied?
  {
    match aaa
    case None => if relaxed then None else Some(AccessDenied("Access api not found"))
    case Some(api) =>
      match api.hasAccess(desc.path, DefaultAcl(desc.tags, env))
      case Answered(true) => None
      case _ => Some(AccessDenied("internal error"))
  }

  /**
   * How an invocation's ending becomes the caller's answer: an
   * OperationException turns into an unsuccessful result with its message,
   * caption and code, any other exception into one with its text and
   * INTERNAL_ERROR, and an error propagates.
   */
  function OutcomeResult(o: InvokeOutcome, env: Env): (r: Result<OperationResult, Failure>)
    ensures r.Failure? <==> o.RaisedError?
    ensures o.Completed? ==> r == Success(o.result)
    ensures o.RaisedOperationException? || o.RaisedException? ==> r.Success? && r.value.NotSuccessful?
    ensures o.RaisedException? ==> r.value.returnCode == env.internalError
  {
    match o
    case Completed(res) => Success(res)
    case RaisedOperationException(e) => Success(NotSuccessful(e.message, e.caption, e.returnCode))
    case RaisedException(text) => Success(NotSuccessful(Some(text), None, env.internalError))
    case RaisedError(text) => Failure(Unexpected(text))
  }

  /** Execution fails with NotFound exactly when no callable can be resolved. */
  lemma ExecuteNotFound(p: LocalOperationsProvider, desc: Descriptor, props: Properties, aaa: Option<AccessApi>,
                        relaxed: bool, invoke: (Handle, Properties) -> InvokeOutcome)
    ensures var r := p.Execute(desc, props, aaa, relaxed, invoke);
      (r.Failure? && r.error.NotFound?) <==> p.ResolveHandle(desc).Failure?
    ensures desc.handle.None? && desc.Provider() != PROVIDER_NAME ==>
      p.Execute(desc, props, aaa, relaxed, invoke) == Failure(NotFound("description is from another provider"))
  {
    if p.ResolveHandle(desc).Success? {
      var h := p.ResolveHandle(desc).value;
      match AccessCheck(desc, aaa, relaxed, p.env)
      case Some(f) =>
      case None =>
        match invoke(h, props)
        case Completed(_) =>
        case RaisedOperationException(_) =>
        case RaisedException(_) =>
        case RaisedError(_) =>
    }
  }

  /** Denied access fails with AccessDenied, and the operation is never invoked. */
  lemma DeniedNeverInvokes(p: LocalOperationsProvider, desc: Descriptor, props: Properties, aaa: Option<AccessApi>,
                           relaxed: bool, invoke1: (Handle, Properties) -> InvokeOutcome,
                           invoke2: (Handle, Properties) -> InvokeOutcome)
    requires p.ResolveHandle(desc).Success?
    requires AccessCheck(desc, aaa, relaxed, p.env).Some?
    ensures p.Execute(desc, props, aaa, relaxed, invoke1) == p.Execute(desc, props, aaa, relaxed, invoke2)
    ensures p.Execute(desc, props, aaa, relaxed, invoke1).Failure?
    ensures p.Execute(desc, props, aaa, relaxed, invoke1).error.AccessDenied?
  {
  }

  /** Access is refused exactly when there is an AccessApi that does not say yes, or none and not relaxed. */
  lemma AccessCheckCases(desc: Descriptor, aaa: Option<AccessApi>, relaxed: bool, env: Env)
    ensures AccessCheck(desc, aaa, relaxed, env).None? <==>
      (aaa.None? && relaxed) || (aaa.Some? && aaa.value.hasAccess(desc.path, DefaultAcl(desc.tags, env)) == Answered(true))
    ensures AccessCheck(desc, aaa, relaxed, env).Some? ==> AccessCheck(desc, aaa, relaxed, env).value.AccessDenied?
  {
  }

  /** The access check reads the descriptor's tags, never the ACL stored at registration. */
  lemma ExecuteIgnoresStoredAcl(p: LocalOperationsProvider, desc: Descriptor, acl: Option<string>, props: Properties,
                                aaa: Option<AccessApi>, relaxed: bool, invoke: (Handle, Properties) -> InvokeOutcome)
    ensures p.Execute(desc.(acl := acl), props, aaa, relaxed, invoke) == p.Execute(desc, props, aaa, relaxed, invoke)
  {
  }

  /** An OperationException is answered with its message, caption and return code. */
  lemma OperationExceptionBecomesResult(p: LocalOperationsProvider, desc: Descriptor, props: Properties,
                                        aaa: Option<AccessApi>, relaxed: bool,
                                        invoke: (Handle, Properties) -> InvokeOutcome, e: OperationException)
    requires p.ResolveHandle(desc).Success? && AccessCheck(desc, aaa, relaxed, p.env).None?
    requires invoke(p.ResolveHandle(desc).value, props) == RaisedOperationException(e)
    ensures p.Execute(desc, props, aaa, relaxed, invoke) == Success(NotSuccessful(e.message, e.caption, e.returnCode))
  {
  }

  /** A stored descriptor that lost its handle is still executed through its register entry. */
  lemma StoredResolvesWithoutHandle(p: LocalOperationsProvider, k: string)
    requires p.Valid() && k in p.register
    requires ComposableSegment(p.register[k].path, p.register[k].versionString)
    ensures p.ResolveHandle(p.register[k].(handle := None)) == Success(p.register[k].handle.value)
  {
    var d := p.register[k];
    LocalAddressParts(d.path, d.versionString, p.env);
  }

  /**
   * A stored operation is found again by its own address, when Version.toString
   * renders its version string back unchanged.
   */
  lemma LookupByOwnAddress(p: LocalOperationsProvider, k: string)
    requires p.Valid() && k in p.register
    requires ComposableSegment(p.register[k].path, p.register[k].versionString)
    requires p.env.versionText(p.register[k].versionString) == JavaStr(p.register[k].versionString)
    ensures p.GetOperation(p.register[k].address) == Success(p.register[k])
  {
    var d := p.register[k];
    LocalAddressParts(d.path, d.versionString, p.env);
  }
}
