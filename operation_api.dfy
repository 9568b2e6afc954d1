/**
 * OperationApiImpl: the aggregator over every registered operations provider
 * (the local one, the JMS one, ...), keyed by the provider's name. Discovery
 * concatenates what the providers contribute, execution by filter asks them
 * in turn until one does not answer NotFound, and execution by descriptor
 * routes to the provider the descriptor names.
 */
module Aggregator {
  import opened Wrappers
  import Strings
  import opened Addressing
  import opened Descriptors

  /** The identity of a registered provider service. */
  datatype ProviderRef = ProviderRef(id: nat)

  /**
   * What a provider's collectOperations did to the shared list: appended
   * `items` and returned, or appended `partial` and then threw.
   */
  datatype CollectOutcome = Collected(items: seq<Descriptor>) | CollectThrew(partial: seq<Descriptor>)

  /** The descriptors a collect call leaves in the list, whether or not it threw. */
  function Contribution(o: CollectOutcome): seq<Descriptor> {
    match o
    case Collected(items) => items
    case CollectThrew(partial) => partial
  }

  /**
   * How each provider answers the aggregator's calls; the providers' own
   * code is modelled elsewhere or not at all, so every property below holds
   * for any behaviour. `synchronize` tells whether the call threw.
   */
  datatype Providers = Providers(
    collect: (ProviderRef, Query) -> CollectOutcome,
    executeMatching: (ProviderRef, Query, Properties) -> Result<OperationResult, Failure>,
    execute: (ProviderRef, Descriptor, Properties) -> Result<OperationResult, Failure>,
    lookup: (ProviderRef, Address) -> Result<Descriptor, Failure>,
    synchronize: ProviderRef -> bool)

  /** The concatenation of what the providers `ps` contribute, in order. */
  function Found(ps: seq<ProviderRef>, q: Query, behave: Providers): seq<Descriptor>
    decreases |ps|
  {
    if ps == [] then []
    else Found(ps[..|ps| - 1], q, behave) + Contribution(behave.collect(ps[|ps| - 1], q))
  }

  /** Discovery over two runs of providers is the concatenation of both. */
  lemma {:induction false} FoundAppend(a: seq<ProviderRef>, b: seq<ProviderRef>, q: Query, behave: Providers)
    ensures Found(a + b, q, behave) == Found(a, q, behave) + Found(b, q, behave)
    decreases |b|
  {
    if b == [] {
      assert a + b == a;
    } else {
      var b' := b[..|b| - 1];
      assert (a + b)[..|a + b| - 1] == a + b';
      assert (a + b)[|a + b| - 1] == b[|b| - 1];
      FoundAppend(a, b', q, behave);
    }
  }

  /** A descriptor is found exactly when some provider contributed it: a throwing provider aborts nothing. */
  lemma {:induction false} FoundMember(ps: seq<ProviderRef>, q: Query, behave: Providers, d: Descriptor)
    ensures d in Found(ps, q, behave) <==> exists i :: 0 <= i < |ps| && d in Contribution(behave.collect(ps[i], q))
    decreases |ps|
  {
    if ps != [] {
      var init := ps[..|ps| - 1];
      FoundMember(init, q, behave, d);
      if exists i :: 0 <= i < |init| && d in Contribution(behave.collect(init[i], q)) {
        var i :| 0 <= i < |init| && d in Contribution(behave.collect(init[i], q));
        assert ps[i] == init[i];
      }
      if exists i :: 0 <= i < |ps| && d in Contribution(behave.collect(ps[i], q)) {
        var i :| 0 <= i < |ps| && d in Contribution(behave.collect(ps[i], q));
        if i < |init| {
          assert init[i] == ps[i];
        }
      }
    }
  }

  /** findOperation's answer: the first descriptor found, or NotFound. */
  function FirstFound(ps: seq<ProviderRef>, q: Query, behave: Providers): Result<Descriptor, Failure> {
    var all := Found(ps, q, behave);
    if all == [] then Failure(NotFound("operation not found")) else Success(all[0])
  }

  /**
   * The first descriptor found is the first item of the first provider that
   * contributes anything; nothing is found exactly when no provider contributes.
   */
  lemma FirstFoundIsFirstContributor(ps: seq<ProviderRef>, q: Query, behave: Providers)
    ensures FirstFound(ps, q, behave).Failure? <==>
      forall i :: 0 <= i < |ps| ==> Contribution(behave.collect(ps[i], q)) == []
    ensures FirstFound(ps, q, behave).Success? ==>
      exists i :: 0 <= i < |ps| && Contribution(behave.collect(ps[i], q)) != []
        && (forall j :: 0 <= j < i ==> Contribution(behave.collect(ps[j], q)) == [])
        && FirstFound(ps, q, behave).value == Contribution(behave.collect(ps[i], q))[0]
  {
    FoundEmpty(ps, q, behave);
    if Found(ps, q, behave) != [] {
      FirstContributor(ps, q, behave);
    }
  }

  /** Nothing is found exactly when no provider contributes anything. */
  lemma FoundEmpty(ps: seq<ProviderRef>, q: Query, behave: Providers)
    ensures Found(ps, q, behave) == [] <==> forall i :: 0 <= i < |ps| ==> Contribution(behave.collect(ps[i], q)) == []
  {
    var all := Found(ps, q, behave);
    if all != [] {
      FoundMember(ps, q, behave, all[0]);
    } else {
      forall i | 0 <= i < |ps| ensures Contribution(behave.collect(ps[i], q)) == [] {
        var c := Contribution(behave.collect(ps[i], q));
        if c != [] {
          FoundMember(ps, q, behave, c[0]);
        }
      }
    }
  }

  /** The first descriptor found comes first from the first provider that contributes anything. */
  lemma {:induction false} FirstContributor(ps: seq<ProviderRef>, q: Query, behave: Providers)
    requires Found(ps, q, behave) != []
    ensures
      exists i :: 0 <= i < |ps| && Contribution(behave.collect(ps[i], q)) != []
        && (forall j :: 0 <= j < i ==> Contribution(behave.collect(ps[j], q)) == [])
        && Found(ps, q, behave)[0] == Contribution(behave.collect(ps[i], q))[0]
    decreases |ps|
  {
    var init := ps[..|ps| - 1];
    var last := Contribution(behave.collect(ps[|ps| - 1], q));
    assert Found(ps, q, behave) == Found(init, q, behave) + last;
    if Found(init, q, behave) == [] {
      FoundEmpty(init, q, behave);
      forall j | 0 <= j < |ps| - 1 ensures Contribution(behave.collect(ps[j], q)) == [] {
        assert ps[j] == init[j];
      }
      assert Found(ps, q, behave)[0] == last[0];
    } else {
      FirstContributor(init, q, behave);
      var i :| 0 <= i < |init| && Contribution(behave.collect(init[i], q)) != []
        && (forall j :: 0 <= j < i ==> Contribution(behave.collect(init[j], q)) == [])
        && Found(init, q, behave)[0] == Contribution(behave.collect(init[i], q))[0];
      assert ps[i] == init[i];
      forall j | 0 <= j < i ensures Contribution(behave.collect(ps[j], q)) == [] {
        assert ps[j] == init[j];
      }
      assert Found(ps, q, behave)[0] == Found(init, q, behave)[0];
    }
  }

  /** Asking one provider more appends its contribution. */
  lemma FoundStep(ps: seq<ProviderRef>, i: nat, q: Query, behave: Providers)
    requires i < |ps|
    ensures Found(ps[..i + 1], q, behave) == Found(ps[..i], q, behave) + Contribution(behave.collect(ps[i], q))
  {
    assert ps[..i + 1][..i] == ps[..i];
  }

  /** Once a prefix of the providers has found something, the later ones do not change the first find. */
  lemma FirstFoundPrefix(ps: seq<ProviderRef>, n: nat, q: Query, behave: Providers)
    requires n <= |ps| && Found(ps[..n], q, behave) != []
    ensures FirstFound(ps, q, behave) == Success(Found(ps[..n], q, behave)[0])
  {
    FoundAppend(ps[..n], ps[n..], q, behave);
    assert ps[..n] + ps[n..] == ps;
  }

  /** True of a failure that the aggregator's execute-by-filter treats as "try the next provider". */
  predicate IsNotFound(r: Result<OperationResult, Failure>) {
    r.Failure? && r.error.NotFound?
  }

  /** Execute by filter: the answer of the first provider that does not raise NotFound. */
  function FirstAnswer(ps: seq<ProviderRef>, q: Query, props: Properties, behave: Providers)
    : Result<OperationResult, Failure>
    decreases |ps|
  {
    if ps == [] then Failure(NotFound("operation not found"))
    else
      var r := behave.executeMatching(ps[0], q, props);
      if IsNotFound(r) then FirstAnswer(ps[1..], q, props, behave) else r
  }

  /**
   * NotFound comes back exactly when every provider raised it, and then with
   * the aggregator's own reason; otherwise the answer is that of the first
   * provider that raised something else or returned.
   */
  lemma {:induction false} FirstAnswerSpec(ps: seq<ProviderRef>, q: Query, props: Properties, behave: Providers)
    ensures IsNotFound(FirstAnswer(ps, q, props, behave)) <==>
      forall i :: 0 <= i < |ps| ==> IsNotFound(behave.executeMatching(ps[i], q, props))
    ensures IsNotFound(FirstAnswer(ps, q, props, behave)) ==>
      FirstAnswer(ps, q, props, behave) == Failure(NotFound("operation not found"))
    ensures !IsNotFound(FirstAnswer(ps, q, props, behave)) ==>
      exists i :: 0 <= i < |ps| && FirstAnswer(ps, q, props, behave) == behave.executeMatching(ps[i], q, props)
        && forall j :: 0 <= j < i ==> IsNotFound(behave.executeMatching(ps[j], q, props))
    decreases |ps|
  {
    if ps != [] {
      var tail := ps[1..];
      FirstAnswerSpec(tail, q, props, behave);
      if IsNotFound(behave.executeMatching(ps[0], q, props)) {
        forall i | 0 < i < |ps| ensures ps[i] == tail[i - 1] {
        }
        if !IsNotFound(FirstAnswer(ps, q, props, behave)) {
          var i :| 0 <= i < |tail| && FirstAnswer(tail, q, props, behave) == behave.executeMatching(tail[i], q, props)
            && forall j :: 0 <= j < i ==> IsNotFound(behave.executeMatching(tail[j], q, props));
          assert FirstAnswer(ps, q, props, behave) == behave.executeMatching(ps[i + 1], q, props);
          assert forall j :: 0 <= j < i + 1 ==> IsNotFound(behave.executeMatching(ps[j], q, props)) by {
            forall j | 0 <= j < i + 1 ensures IsNotFound(behave.executeMatching(ps[j], q, props)) {
              if j > 0 {
                assert ps[j] == tail[j - 1];
              }
            }
          }
        }
      } else {
        assert FirstAnswer(ps, q, props, behave) == behave.executeMatching(ps[0], q, props);
      }
    }
  }

  class OperationApiImpl {
    var register: map<string, ProviderRef>

    constructor ()
      ensures register == map[]
    {
      register := map[];
    }

    /**
     * addingService: a non-null provider is stored under String.valueOf of
     * its `provider` property, replacing any earlier one (`warned` says there was one).
     */
    method AddingService(nameProperty: Option<string>, service: Option<ProviderRef>) returns (warned: bool)
      modifies this
      ensures service.Some? ==> register == old(register)[JavaName(nameProperty) := service.value]
                                && warned == (JavaName(nameProperty) in old(register))
      ensures service.None? ==> register == old(register) && !warned
    {
      warned := false;
      if service.Some? {
        var name := JavaName(nameProperty);
        warned := name in register;
        register := register[name := service.value];
      }
    }

    /** modifiedService: a non-null provider overwrites its name's entry. */
    method ModifiedService(nameProperty: Option<string>, service: Option<ProviderRef>)
      modifies this
      ensures service.Some? ==> register == old(register)[JavaName(nameProperty) := service.value]
      ensures service.None? ==> register == old(register)
    {
      if service.Some? {
        register := register[JavaName(nameProperty) := service.value];
      }
    }

    /** removedService: deletes that name only. */
    method RemovedService(nameProperty: Option<string>, service: Option<ProviderRef>)
      modifies this
      ensures service.Some? ==> register == old(register) - {JavaName(nameProperty)}
      ensures service.None? ==> register == old(register)
    {
      if service.Some? {
        register := register - {JavaName(nameProperty)};
      }
    }

    /** getProvider: the provider registered under `name`, if any. */
    function GetProvider(name: string): (r: Option<ProviderRef>)
      reads this
      ensures r.Some? <==> name in register
      ensures r.Some? ==> r.value == register[name]
    {
      if name in register then Some(register[name]) else None
    }

    /** getProviderNames: every registered name once, in hash order. */
    method GetProviderNames() returns (names: seq<string>)
      ensures Enumerates(names, register.Keys)
    {
      names := KeyOrder(register);
    }

    /** `ps` lists the provider under each name of `names`, and `names` enumerates the register. */
    ghost predicate Snapshot(ps: seq<ProviderRef>, names: seq<string>)
      reads this
    {
      Enumerates(names, register.Keys) && |ps| == |names|
      && forall i :: 0 <= i < |names| ==> ps[i] == register[names[i]]
    }

    /** getProviders: the register's values, one per name, in hash order. */
    method GetProviders() returns (ps: seq<ProviderRef>, ghost names: seq<string>)
      ensures Snapshot(ps, names)
      ensures forall p :: p in ps <==> p in register.Values
    {
      var order := KeyOrder(register);
      ps := [];
      for i := 0 to |order|
        invariant |ps| == i && forall j :: 0 <= j < i ==> ps[j] == register[order[j]]
      {
        ps := ps + [register[order[i]]];
      }
      names := order;
      ListedValues(register, ps, names);
    }

    /**
     * getOperation: asks the provider the address names. An unregistered
     * provider is dereferenced as null, which is a NullPointer failure and
     * not NotFound.
     */
    function GetOperation(addr: Address, behave: Providers): (r: Result<Descriptor, Failure>)
      reads this
      ensures addr.provider !in register ==> r == Failure(NullPointer)
      ensures addr.provider in register ==> r == behave.lookup(register[addr.provider], addr)
    {
      match GetProvider(addr.provider)
      case None => Failure(NullPointer)
      case Some(p) => behave.lookup(p, addr)
    }

    /** findOperations: what every provider of the snapshot `ps` contributes, concatenated. */
    method FindOperations(q: Query, behave: Providers) returns (list: seq<Descriptor>, ghost ps: seq<ProviderRef>)
      ensures exists names :: Snapshot(ps, names)
      ensures list == Found(ps, q, behave)
    {
      ghost var names;
      var providers;
      providers, names := GetProviders();
      ps := providers;
      list := [];
      for i := 0 to |providers|
        invariant list == Found(providers[..i], q, behave)
      {
        FoundStep(providers, i, q, behave);
        list := list + Contribution(behave.collect(providers[i], q));
      }
      assert providers[..|providers|] == providers;
      assert Snapshot(ps, names);
    }

    /** findOperation: the first descriptor any provider of the snapshot contributes, or NotFound. */
    method FindOperation(q: Query, behave: Providers) returns (r: Result<Descriptor, Failure>, ghost ps: seq<ProviderRef>)
      ensures exists names :: Snapshot(ps, names)
      ensures r == FirstFound(ps, q, behave)
    {
      ghost var names;
      var providers;
      providers, names := GetProviders();
      ps := providers;
      var list: seq<Descriptor> := [];
      var i := 0;
      while i < |providers|
        invariant 0 <= i <= |providers|
        invariant list == Found(providers[..i], q, behave) == []
      {
        FoundStep(providers, i, q, behave);
        list := list + Contribution(behave.collect(providers[i], q));
        if |list| > 0 {
          FirstFoundPrefix(providers, i + 1, q, behave);
          r := Success(list[0]);
          assert Snapshot(ps, names);
          return;
        }
        i := i + 1;
      }
      assert providers[..i] == providers;
      r := Failure(NotFound("operation not found"));
      assert Snapshot(ps, names);
    }

    /**
     * doExecute(filter): the providers of the snapshot are asked in turn; the
     * first answer that is not NotFound is returned, whatever it is.
     */
    method ExecuteMatching(q: Query, props: Properties, behave: Providers)
      returns (r: Result<OperationResult, Failure>, ghost ps: seq<ProviderRef>)
      ensures exists names :: Snapshot(ps, names)
      ensures r == FirstAnswer(ps, q, props, behave)
    {
      ghost var names;
      var providers;
      providers, names := GetProviders();
      ps := providers;
      var i := 0;
      while i < |providers|
        invariant 0 <= i <= |providers|
        invariant FirstAnswer(providers, q, props, behave) == FirstAnswer(providers[i..], q, props, behave)
      {
        var answer := behave.executeMatching(providers[i], q, props);
        assert providers[i..][1..] == providers[i + 1..];
        if !IsNotFound(answer) {
          r := answer;
          assert Snapshot(ps, names);
          return;
        }
        i := i + 1;
      }
      r := Failure(NotFound("operation not found"));
      assert Snapshot(ps, names);
    }

    /** doExecute(descriptor): the provider the descriptor names runs it; an unknown name is NotFound. */
    function Execute(desc: Descriptor, props: Properties, behave: Providers): (r: Result<OperationResult, Failure>)
      reads this
      ensures desc.Provider() !in register ==> r == Failure(NotFound("provider for operation not found"))
      ensures desc.Provider() in register ==> r == behave.execute(register[desc.Provider()], desc, props)
    {
      match GetProvider(desc.Provider())
      case None => Failure(NotFound("provider for operation not found"))
      case Some(p) => behave.execute(p, desc, props)
    }

    /**
     * synchronize: every provider of the snapshot is called, in order, and a
     * provider that throws does not stop the others; `threw` records, call by
     * call, which of them threw (and were logged).
     */
    method Synchronize(behave: Providers) returns (threw: seq<bool>, ghost ps: seq<ProviderRef>)
      ensures exists names :: Snapshot(ps, names)
      ensures |threw| == |ps|
      ensures forall i :: 0 <= i < |ps| ==> threw[i] == behave.synchronize(ps[i])
    {
      ghost var names;
      var providers;
      providers, names := GetProviders();
      ps := providers;
      threw := [];
      for i := 0 to |providers|
        invariant |threw| == i && forall j :: 0 <= j < i ==> threw[j] == behave.synchronize(providers[j])
      {
        var failed := behave.synchronize(providers[i]);
        threw := threw + [failed];
      }
      assert Snapshot(ps, names);
    }
  }

  /** Listing the value under each key of an enumeration lists every value of the map. */
  lemma ListedValues(m: map<string, ProviderRef>, ps: seq<ProviderRef>, names: seq<string>)
    requires Enumerates(names, m.Keys) && |ps| == |names|
    requires forall i :: 0 <= i < |names| ==> ps[i] == m[names[i]]
    ensures forall p :: p in ps <==> p in m.Values
  {
    forall p | p in m.Values ensures p in ps {
      var k :| k in m && m[k] == p;
      var i :| 0 <= i < |names| && names[i] == k;
      assert ps[i] == p;
    }
  }

  /** String.valueOf of the `provider` service property. */
  function JavaName(property: Option<string>): string {
    Strings.JavaStr(property)
  }
}
