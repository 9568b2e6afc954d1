/**
 * The values the operation layer passes around: operation descriptions as
 * services publish them, operation descriptors as providers keep them,
 * queries, results and failures, and the environment of helpers whose code
 * is not part of this model.
 */
module Descriptors {
  import opened Wrappers
  import opened Strings
  import opened Addressing
  import opened Exceptions

  /** The identity of a registered operation service object. */
  datatype Handle = Handle(id: nat)

  /** An operation's own description: its path, version string, title and TAGS parameter. */
  datatype Description = Description(
    path: Option<string>,
    versionString: Option<string>,
    title: Option<string>,
    tagsParameter: Option<string>)

  /**
   * An operation descriptor. `handle` is the callable a local descriptor
   * carries; descriptors of other providers have none.
   */
  datatype Descriptor = Descriptor(
    address: Address,
    path: string,
    versionString: Option<string>,
    title: Option<string>,
    tags: set<string>,
    acl: Option<string>,
    lastUpdated: int,
    handle: Option<Handle>)
  {
    /** The provider is the one named by the descriptor's address. */
    function Provider(): string {
      address.provider
    }
  }

  /** The register key of an operation: its path, ':' and its version string (null renders as "null"). */
  function Key(path: string, versionString: Option<string>): string {
    path + ":" + JavaStr(versionString)
  }

  /** A discovery query: a name filter, a version range and the tags the caller provides. */
  datatype Query = Query(filter: string, versionRange: Option<string>, providedTags: Option<seq<string>>)

  /** The execution properties handed to an operation. */
  type Properties = map<string, string>

  /** What an operation returns. */
  datatype OperationResult =
    | Successful(result: string)
    | NotSuccessful(message: Option<string>, caption: Option<string>, returnCode: Long)

  /** The exceptions the operation layer raises towards its callers. */
  datatype Failure =
    | NotFound(reason: string)
    | AccessDenied(reason: string)
    | NullPointer
    | Unexpected(text: string)

  /** How a call into an operation ended. */
  datatype InvokeOutcome =
    | Completed(result: OperationResult)
    | RaisedOperationException(e: OperationException)
    | RaisedException(text: string)
    | RaisedError(text: string)

  /**
   * The helpers whose code lies outside the model, taken as parameters so
   * that every property holds whatever they do: the default provider name,
   * Version.toString, the TAG_DEFAULT_ACL option lookup over a tag set,
   * the descriptor/query matcher and the INTERNAL_ERROR return code.
   */
  datatype Env = Env(
    defaultProvider: string,
    versionText: Option<string> -> string,
    aclOption: set<string> -> Option<string>,
    matches: (Descriptor, Query) -> bool,
    internalError: Long)

  /** `getVersionString` of an address: its version rendered by Version.toString. */
  function AddressVersionString(a: Address, env: Env): string {
    env.versionText(a.version)
  }

  /** The elements of a sequence as a set. */
  function Elements(s: seq<string>): (r: set<string>)
    ensures forall x :: x in r <==> x in s
  {
    set x | x in s
  }

  /** `order` lists every key of `keys` exactly once: the iteration order of a hash map's key set. */
  ghost predicate Enumerates(order: seq<string>, keys: set<string>) {
    (forall k :: k in keys <==> k in order)
    && (forall i, j :: 0 <= i < j < |order| ==> order[i] != order[j])
  }

  /** The keys of `m` in the map's iteration order, each once. */
  method KeyOrder<V>(m: map<string, V>) returns (order: seq<string>)
    ensures Enumerates(order, m.Keys)
  {
    order := [];
    var remaining := m.Keys;
    while remaining != {}
      invariant remaining <= m.Keys
      invariant forall k :: k in m.Keys <==> k in remaining || k in order
      invariant forall k :: k in order ==> k !in remaining
      invariant forall i, j :: 0 <= i < j < |order| ==> order[i] != order[j]
      decreases |remaining|
    {
      var k :| k in remaining;
      order := order + [k];
      remaining := remaining - {k};
    }
  }
}
