/**
 * Jms2LocalOperationExecuteChannel: the JMS-facing side of this node's
 * operations. It publishes the catalog of operations that are not
 * themselves JMS proxies, makes sure the channel's server authenticates
 * incoming calls, and forwards execution and lookup requests to the
 * aggregator.
 */
module JmsChannel {
  import opened Wrappers
  import opened Strings
  import opened Descriptors
  import opened Aggregator

  /** An inbound interceptor of a channel server; TicketAccess checks the caller's ticket. */
  datatype Interceptor = TicketAccess | OtherInterceptor(id: nat)

  /** The server `getServer()` returns behind the channel (its code is not part of this model), with its optional inbound interceptor. */
  class ChannelServer {
    var interceptorIn: Option<Interceptor>

    constructor (interceptorIn: Option<Interceptor>)
      ensures this.interceptorIn == interceptorIn
    {
      this.interceptorIn := interceptorIn;
    }
  }

  /** The catalog entry published for a descriptor: `path:version`, a null version written "null". */
  function PublicName(d: Descriptor): string {
    d.path + ":" + JavaStr(d.versionString)
  }

  /** The published catalog for the descriptors `ds`: every one not owned by the JMS provider, in order. */
  function PublicNames(ds: seq<Descriptor>, jmsProvider: string): (names: seq<string>)
    ensures |names| <= |ds|
    decreases |ds|
  {
    if ds == [] then []
    else
      var d := ds[|ds| - 1];
      PublicNames(ds[..|ds| - 1], jmsProvider) + (if d.Provider() != jmsProvider then [PublicName(d)] else [])
  }

  /** A catalog entry is the name of some descriptor of another provider, and every such name is listed. */
  lemma {:induction false} PublicNamesMember(ds: seq<Descriptor>, jmsProvider: string, s: string)
    ensures s in PublicNames(ds, jmsProvider) <==>
            exists d :: d in ds && d.Provider() != jmsProvider && s == PublicName(d)
    decreases |ds|
  {
    if ds != [] {
      var init := ds[..|ds| - 1];
      var d := ds[|ds| - 1];
      assert ds == init + [d];
      PublicNamesMember(init, jmsProvider, s);
      if s in PublicNames(ds, jmsProvider) && s !in PublicNames(init, jmsProvider) {
        assert d in ds;
      }
      if e :| e in ds && e.Provider() != jmsProvider && s == PublicName(e) {
        if e != d {
          assert e in init;
        }
      }
    }
  }

  /** Publishing keeps the aggregator's order: the catalog of a concatenation is the concatenation of catalogs. */
  lemma {:induction false} PublicNamesAppend(a: seq<Descriptor>, b: seq<Descriptor>, jmsProvider: string)
    ensures PublicNames(a + b, jmsProvider) == PublicNames(a, jmsProvider) + PublicNames(b, jmsProvider)
    decreases |b|
  {
    if b == [] {
      assert a + b == a;
    } else {
      var init := b[..|b| - 1];
      assert (a + b)[..|a + b| - 1] == a + init;
      assert (a + b)[|a + b| - 1] == b[|b| - 1];
      PublicNamesAppend(a, init, jmsProvider);
    }
  }

  /** A descriptor of the JMS provider contributes nothing, wherever it stands. */
  lemma PublicNamesSkipJms(a: seq<Descriptor>, d: Descriptor, b: seq<Descriptor>, jmsProvider: string)
    requires d.Provider() == jmsProvider
    ensures PublicNames(a + [d] + b, jmsProvider) == PublicNames(a + b, jmsProvider)
  {
    PublicNamesAppend(a + [d], b, jmsProvider);
    PublicNamesAppend(a, [d], jmsProvider);
    PublicNamesAppend(a, b, jmsProvider);
    assert [d][..0] == [];
  }

  /** When no descriptor is the JMS provider's, every one of them is published. */
  lemma {:induction false} PublicNamesAllForeign(ds: seq<Descriptor>, jmsProvider: string)
    requires forall i :: 0 <= i < |ds| ==> ds[i].Provider() != jmsProvider
    ensures |PublicNames(ds, jmsProvider)| == |ds|
    ensures forall i :: 0 <= i < |ds| ==> PublicNames(ds, jmsProvider)[i] == PublicName(ds[i])
    decreases |ds|
  {
    if ds != [] {
      PublicNamesAllForeign(ds[..|ds| - 1], jmsProvider);
    }
  }

  /** The loop of getPublicOperations: the name of each descriptor not owned by the JMS provider, in list order. */
  method Publish(list: seq<Descriptor>, jmsProvider: string) returns (out: seq<string>)
    ensures out == PublicNames(list, jmsProvider)
  {
    out := [];
    for i := 0 to |list|
      invariant out == PublicNames(list[..i], jmsProvider)
    {
      var desc := list[i];
      assert list[..i + 1][..i] == list[..i];
      if desc.Provider() != jmsProvider {
        out := out + [PublicName(desc)];
      }
    }
    assert list[..|list|] == list;
  }

  class Jms2LocalOperationExecuteChannel {
    /** The channel's server; there is none before the channel is connected. */
    const server: ChannelServer?
    /** The JMS operations provider's name; its descriptors are remote and never republished. */
    const jmsProviderName: string
    /** The aggregator the channel looks operations up in. */
    const api: OperationApiImpl

    constructor (server: ChannelServer?, jmsProviderName: string, api: OperationApiImpl)
      ensures this.server == server && this.jmsProviderName == jmsProviderName && this.api == api
    {
      this.server := server;
      this.jmsProviderName := jmsProviderName;
      this.api := api;
    }

    /** doAfterReset: installs ticket authentication when a server exists and has no interceptor yet. */
    method DoAfterReset()
      modifies server
      ensures server != null && old(server.interceptorIn).None? ==> server.interceptorIn == Some(TicketAccess)
      ensures server != null && old(server.interceptorIn).Some? ==> server.interceptorIn == old(server.interceptorIn)
    {
      if server != null && server.interceptorIn.None? {
        server.interceptorIn := Some(TicketAccess);
      }
    }

    /**
     * getPublicOperations: the catalog of everything the aggregator finds for
     * the filter "*", without the JMS provider's own descriptors. `found` is
     * the aggregator's answer and `ps` the provider snapshot it came from.
     */
    method GetPublicOperations(behave: Providers)
      returns (out: seq<string>, ghost found: seq<Descriptor>, ghost ps: seq<ProviderRef>)
      ensures exists names :: api.Snapshot(ps, names)
      ensures found == Found(ps, Query("*", None, None), behave)
      ensures out == PublicNames(found, jmsProviderName)
    {
      var list;
      list, ps := api.FindOperations(Query("*", None, None), behave);
      ghost var names :| api.Snapshot(ps, names);
      found := list;
      out := Publish(list, jmsProviderName);
      assert api.Snapshot(ps, names);
    }

    /** doExecute: the aggregator's execution by path and version with no tags, answered unchanged. */
    method DoExecute(path: string, version: Option<string>, props: Properties, behave: Providers)
      returns (r: Result<OperationResult, Failure>, ghost ps: seq<ProviderRef>)
      ensures exists names :: api.Snapshot(ps, names)
      ensures r == FirstAnswer(ps, Query(path, version, None), props, behave)
    {
      r, ps := api.ExecuteMatching(Query(path, version, None), props, behave);
    }

    /** getOperationDescription: the aggregator's findOperation answer, with its NotFound passed on. */
    method GetOperationDescription(path: string, version: Option<string>, behave: Providers)
      returns (r: Result<Descriptor, Failure>, ghost ps: seq<ProviderRef>)
      ensures exists names :: api.Snapshot(ps, names)
      ensures r == FirstFound(ps, Query(path, version, None), behave)
    {
      r, ps := api.FindOperation(Query(path, version, None), behave);
    }
  }
}
