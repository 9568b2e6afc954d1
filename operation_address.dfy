/**
 * The operation address `provider://group.name:version/part/part`:
 * parsing (the OperationAddress constructor), its getters, and `create`,
 * which composes an address from its components.
 *
 * The version is kept as the token the parser cut out of the address:
 * `Some(t)` stands for `new Version(t)` and `None` for `new Version(null)`.
 * How a Version renders itself is not part of this module.
 */
module Addressing {
  import opened Wrappers
  import opened Strings

  const SCHEME := "://"

  datatype Address = Address(
    raw: string,               // the unparsed text, returned by toString
    provider: string,
    path: string,              // group.name
    version: Option<string>,   // the version token, None when the address has no ':'
    parts: seq<string>)        // the '/'-separated pieces after the path
  {
    /** getGroup: the path before its last '.', or "" without a '.'. */
    function Group(): string {
      match LastIndexOfChar(path, '.')
      case Some(i) => path[..i]
      case None => ""
    }

    /** getName: the path after its last '.', or the whole path without a '.'. */
    function Name(): string {
      match LastIndexOfChar(path, '.')
      case Some(i) => path[i + 1..]
      case None => path
    }

    /** partSize */
    function PartSize(): nat {
      |parts|
    }

    /** getPart: an index outside the parts is a programming error in the source (it throws). */
    function Part(index: nat): string
      requires index < PartSize()
    {
      parts[index]
    }

    /** toString gives back the text the address was parsed from. */
    function ToString(): string {
      raw
    }
  }

  /** First step of the parse: the provider is the text before the first "://". */
  function SplitScheme(s: string): (r: (Option<string>, string))
    ensures r.0.Some? ==> s == r.0.value + SCHEME + r.1 && !Contains(r.0.value, SCHEME)
    ensures r.0.None? ==> r.1 == s && !Contains(s, SCHEME)
  {
    match IndexOf(s, SCHEME)
    case Some(p) =>
      NoEarlierOccurrence(s, SCHEME, p);
      assert s == s[..p] + SCHEME + s[p + 3..];
      (Some(s[..p]), s[p + 3..])
    case None => (None, s)
  }

  /** A prefix that ends before the first occurrence of a pattern does not contain it. */
  lemma NoEarlierOccurrence(s: string, pat: string, p: nat)
    requires pat != [] && p <= |s|
    requires forall j: nat :: j < p ==> !OccursAt(s, pat, j)
    ensures !Contains(s[..p], pat)
  {
    forall j: nat | OccursAt(s[..p], pat, j) ensures false {
      PrefixOccurrence(s, pat, p, j);
    }
  }

  lemma PrefixOccurrence(s: string, pat: string, p: nat, j: nat)
    requires pat != [] && p <= |s|
    requires OccursAt(s[..p], pat, j)
    ensures j < p && OccursAt(s, pat, j)
  {
    assert s[..p][j..j + |pat|] == s[j..j + |pat|];
  }

  /**
   * The second and third steps of the parse: the text before the first `c`
   * and, when there is one, the text after it. The segment is cut at the
   * first '/', and the path of the segment at its first ':'.
   */
  function SplitAtFirst(s: string, c: char): (r: (string, Option<string>))
    ensures c !in r.0
    ensures r.1.Some? ==> s == r.0 + [c] + r.1.value
    ensures r.1.None? ==> s == r.0
  {
    match IndexOfChar(s, c)
    case Some(p) =>
      assert s == s[..p] + [c] + s[p + 1..];
      (s[..p], Some(s[p + 1..]))
    case None => (s, None)
  }

  /** The parts: String.split("/") of the rest, or none when the rest is empty. */
  function SplitParts(rest: string): (parts: seq<string>)
    ensures forall k :: 0 <= k < |parts| ==> '/' !in parts[k]
    ensures parts == [] || parts[|parts| - 1] != ""
    ensures rest == "" ==> parts == []
  {
    if |rest| > 0 then
      JavaSplitPieces(rest, '/');
      JavaSplit(rest, '/')
    else []
  }

  /** The OperationAddress constructor. */
  function Parse(raw: string, defaultProvider: string): (a: Address)
    ensures a.raw == raw
    ensures !Contains(raw, SCHEME) ==> a.provider == defaultProvider
  {
    var (scheme, afterScheme) := SplitScheme(raw);
    var (segment, rest) := SplitAtFirst(afterScheme, '/');
    var (path, version) := SplitAtFirst(segment, ':');
    Address(raw, scheme.GetOr(defaultProvider), path, version, SplitParts(rest.GetOr("")))
  }

  /** What `create` appends for the parts: "/" and the part, for each part in turn. */
  function Slashed(parts: seq<string>): string
    decreases |parts|
  {
    if parts == [] then "" else "/" + parts[0] + Slashed(parts[1..])
  }

  /** What `create` appends for the version: ":" and the version, or nothing. */
  function VersionSuffix(version: Option<string>): string {
    match version
    case Some(v) => ":" + v
    case None => ""
  }

  /** The text `create` builds: `provider://path[:version]/part...`. */
  function Compose(provider: string, path: string, version: Option<string>, parts: seq<string>): string {
    provider + SCHEME + path + VersionSuffix(version) + Slashed(parts)
  }

  /**
   * OperationAddress.create(providerName, desc, parts...): the StringBuilder
   * loop over the parts, then a parse of what it built. A null path of the
   * description is appended as "null"; a null version string is left out.
   */
  method Create(providerName: string, descPath: Option<string>, descVersion: Option<string>,
                parts: seq<string>, defaultProvider: string)
    returns (a: Address)
    ensures a == Parse(Compose(providerName, JavaStr(descPath), descVersion, parts), defaultProvider)
    ensures !Contains(providerName, SCHEME) && ComposableSegment(JavaStr(descPath), descVersion) && ComposableParts(parts)
      ==> a.provider == providerName && a.path == JavaStr(descPath) && a.version == descVersion && a.parts == parts
  {
    var b := Build(providerName, JavaStr(descPath), descVersion, parts);
    a := Parse(b, defaultProvider);
    if !Contains(providerName, SCHEME) && ComposableSegment(JavaStr(descPath), descVersion) && ComposableParts(parts) {
      RoundTrip(providerName, JavaStr(descPath), descVersion, parts, defaultProvider);
    }
  }

  /** The StringBuilder of `create`: scheme, path, optional version, then "/" and each part in turn. */
  method Build(providerName: string, path: string, version: Option<string>, parts: seq<string>)
    returns (b: string)
    ensures b == Compose(providerName, path, version, parts)
  {
    b := providerName + SCHEME + path;
    if version.Some? {
      b := b + ":" + version.value;
    }
    ghost var head := b;
    assert head == providerName + SCHEME + path + VersionSuffix(version);
    var i := 0;
    while i < |parts|
      invariant 0 <= i <= |parts|
      invariant b == head + Slashed(parts[..i])
    {
      BuildStep(head, parts, i, b);
      b := b + "/" + parts[i];
      i := i + 1;
    }
    assert parts[..i] == parts;
  }

  /** One turn of the StringBuilder loop appends the next slashed part. */
  lemma BuildStep(head: string, parts: seq<string>, i: nat, b: string)
    requires i < |parts| && b == head + Slashed(parts[..i])
    ensures b + "/" + parts[i] == head + Slashed(parts[..i + 1])
  {
    SlashedAppend(parts[..i], parts[i]);
    assert parts[..i + 1] == parts[..i] + [parts[i]];
  }

  lemma {:induction false} SlashedAppend(parts: seq<string>, part: string)
    ensures Slashed(parts + [part]) == Slashed(parts) + "/" + part
    decreases |parts|
  {
    if parts != [] {
      assert (parts + [part])[1..] == parts[1..] + [part];
      SlashedAppend(parts[1..], part);
    }
  }

  lemma {:induction false} SlashedIsJoin(parts: seq<string>)
    requires parts != []
    ensures Slashed(parts) == "/" + Join(parts, '/')
    decreases |parts|
  {
    if |parts| > 1 {
      SlashedIsJoin(parts[1..]);
    }
  }

  /** A path and version that `create` can write so that parsing gives them back. */
  predicate ComposableSegment(path: string, version: Option<string>) {
    '/' !in path && ':' !in path && (version.Some? ==> '/' !in version.value)
  }

  /** Parts that survive the '/'-join and String.split unchanged. */
  predicate ComposableParts(parts: seq<string>) {
    (forall k :: 0 <= k < |parts| ==> '/' !in parts[k]) && (parts == [] || parts[|parts| - 1] != "")
  }

  /** A provider name free of "://" is exactly what precedes the first "://" of `provider + "://" + text`. */
  lemma SchemeSplit(provider: string, text: string)
    requires !Contains(provider, SCHEME)
    ensures SplitScheme(provider + SCHEME + text) == (Some(provider), text)
  {
    var s := provider + SCHEME + text;
    var n := |provider|;
    assert s[n..n + 3] == SCHEME;
    assert OccursAt(s, SCHEME, n);
    forall j: nat | j < n ensures !OccursAt(s, SCHEME, j) {
      if j + 3 <= n {
        assert provider[j..j + 3] == s[j..j + 3];
        assert !OccursAt(provider, SCHEME, j);
      } else if j + 3 <= |s| {
        assert s[j..j + 3][n - j] == s[n] == ':';
        assert SCHEME[n - j] == '/';
      }
    }
    assert IndexOf(s, SCHEME) == Some(n);
    assert s[..n] == provider && s[n + 3..] == text;
  }

  /** A segment free of '/' followed by the slashed parts splits into the segment and the joined parts. */
  lemma SegmentSplit(segment: string, parts: seq<string>)
    requires '/' !in segment
    ensures SplitAtFirst(segment + Slashed(parts), '/') == (segment, if parts == [] then None else Some(Join(parts, '/')))
  {
    var text := segment + Slashed(parts);
    if parts == [] {
      assert text == segment;
    } else {
      SlashedIsJoin(parts);
      var joined := Join(parts, '/');
      assert text == segment + "/" + joined;
      assert text[|segment|] == '/' && text[..|segment|] == segment;
      IndexOfCharAt(text, '/', |segment|);
      assert text[|segment| + 1..] == joined;
    }
  }

  /** A path free of ':' followed by the version suffix splits into the path and the version token. */
  lemma VersionSplit(path: string, version: Option<string>)
    requires ':' !in path
    ensures SplitAtFirst(path + VersionSuffix(version), ':') == (path, version)
  {
    match version
    case Some(t) =>
      assert path + VersionSuffix(version) == path + ":" + t;
      VersionSplitAt(path, t);
    case None =>
      assert path + VersionSuffix(version) == path;
      assert IndexOfChar(path, ':') == None;
  }

  /** The ':' after a colon-free path is the first one. */
  lemma VersionSplitAt(path: string, t: string)
    requires ':' !in path
    ensures SplitAtFirst(path + ":" + t, ':') == (path, Some(t))
  {
    var seg := path + ":" + t;
    var p := |path|;
    assert seg[p] == ':';
    assert seg[..p] == path;
    IndexOfCharAt(seg, ':', p);
    assert seg[p + 1..] == t;
  }

  /** The joined parts are never empty when the last part is not. */
  lemma JoinNotEmpty(parts: seq<string>)
    requires parts != [] && parts[|parts| - 1] != ""
    ensures Join(parts, '/') != ""
    decreases |parts|
  {
    if |parts| > 1 {
      JoinNotEmpty(parts[1..]);
    }
  }

  /** Parsing what `create` builds recovers the provider, the path, the version token and the parts. */
  lemma RoundTrip(provider: string, path: string, version: Option<string>, parts: seq<string>, defaultProvider: string)
    requires !Contains(provider, SCHEME)
    requires ComposableSegment(path, version)
    requires ComposableParts(parts)
    ensures var a := Parse(Compose(provider, path, version, parts), defaultProvider);
      a.provider == provider && a.path == path && a.version == version && a.parts == parts
  {
    var segment := path + VersionSuffix(version);
    var text := segment + Slashed(parts);
    var raw := Compose(provider, path, version, parts);
    ComposeShape(provider, path, version, parts);
    SchemeSplit(provider, text);
    SegmentFree(path, version);
    SegmentSplit(segment, parts);
    VersionSplit(path, version);
    var rest := if parts == [] then None else Some(Join(parts, '/'));
    ParseSteps(raw, defaultProvider, Some(provider), text, segment, rest, path, version);
    PartsSplit(parts);
  }

  /** The composed text is the provider, the scheme, and then the segment followed by the slashed parts. */
  lemma ComposeShape(provider: string, path: string, version: Option<string>, parts: seq<string>)
    ensures Compose(provider, path, version, parts) == provider + SCHEME + ((path + VersionSuffix(version)) + Slashed(parts))
  {
  }

  /** A composable path and version make a segment free of '/'. */
  lemma SegmentFree(path: string, version: Option<string>)
    requires ComposableSegment(path, version)
    ensures '/' !in path + VersionSuffix(version)
  {
  }

  /** Canonical parts come back from splitting their join (nothing when there are none). */
  lemma PartsSplit(parts: seq<string>)
    requires ComposableParts(parts)
    ensures SplitParts((if parts == [] then None else Some(Join(parts, '/'))).GetOr("")) == parts
  {
    if parts != [] {
      JavaSplitJoin(parts, '/');
      JoinNotEmpty(parts);
    }
  }

  /** The parse, given the outcome of each of its three splits. */
  lemma ParseSteps(raw: string, defaultProvider: string, scheme: Option<string>, afterScheme: string,
                   segment: string, rest: Option<string>, path: string, version: Option<string>)
    requires SplitScheme(raw) == (scheme, afterScheme)
    requires SplitAtFirst(afterScheme, '/') == (segment, rest)
    requires SplitAtFirst(segment, ':') == (path, version)
    ensures Parse(raw, defaultProvider) == Address(raw, scheme.GetOr(defaultProvider), path, version, SplitParts(rest.GetOr("")))
  {
  }

  /** The components of any parsed address: what the split rules guarantee about each of them. */
  lemma ParseComponents(raw: string, defaultProvider: string)
    ensures var a := Parse(raw, defaultProvider);
      && (Contains(raw, SCHEME) ==> !Contains(a.provider, SCHEME) && raw[..|a.provider| + 3] == a.provider + SCHEME)
      && (!Contains(raw, SCHEME) ==> a.provider == defaultProvider)
      && ComposableSegment(a.path, a.version)
      && ComposableParts(a.parts)
  {
    var (scheme, afterScheme) := SplitScheme(raw);
    if scheme.Some? {
      assert raw == scheme.value + SCHEME + afterScheme;
      assert raw[..|scheme.value| + 3] == scheme.value + SCHEME;
    } else {
      assert !Contains(raw, SCHEME);
    }
    var (segment, rest) := SplitAtFirst(afterScheme, '/');
    var (path, version) := SplitAtFirst(segment, ':');
    assert '/' !in path && (version.Some? ==> '/' !in version.value) by {
      if version.Some? {
        assert segment == path + ":" + version.value;
        forall k | 0 <= k < |version.value| ensures version.value[k] != '/' {
          assert version.value[k] == segment[|path| + 1 + k];
        }
      }
      forall k | 0 <= k < |path| ensures path[k] != '/' {
        assert path[k] == segment[k];
      }
    }
  }

  /**
   * Parsing is idempotent: composing a parsed address and parsing the text
   * again gives the same provider, path, version token and parts.
   */
  lemma ParseComposeParse(raw: string, defaultProvider: string)
    requires !Contains(defaultProvider, SCHEME)
    ensures var a := Parse(raw, defaultProvider);
      var b := Parse(Compose(a.provider, a.path, a.version, a.parts), defaultProvider);
      b.provider == a.provider && b.path == a.path && b.version == a.version && b.parts == a.parts
  {
    var a := Parse(raw, defaultProvider);
    ParseComponents(raw, defaultProvider);
    RoundTrip(a.provider, a.path, a.version, a.parts, defaultProvider);
  }

  /** With a '.', the path is the group, a '.', and a name free of '.'; without one the group is empty. */
  lemma GroupAndName(a: Address)
    ensures '.' in a.path ==> a.path == a.Group() + "." + a.Name() && '.' !in a.Name()
    ensures '.' !in a.path ==> a.Group() == "" && a.Name() == a.path
  {
    match LastIndexOfChar(a.path, '.')
    case Some(i) =>
      assert a.path == a.path[..i] + "." + a.path[i + 1..];
    case None =>
  }

  /** A text without ':' has no scheme. */
  lemma NoColonNoScheme(s: string)
    requires ':' !in s
    ensures !Contains(s, SCHEME)
  {
    forall j: nat ensures !OccursAt(s, SCHEME, j) {
      if j + 3 <= |s| {
        assert s[j..j + 3][0] == s[j] != ':';
      }
    }
  }

  /** The example of the class documentation. */
  lemma DocumentationExample(raw: string, defaultProvider: string)
    requires raw == DOC_EXAMPLE
    ensures var a := Parse(raw, defaultProvider);
      a.provider == "jms" && a.path == "de.xyz.Operation" && a.Group() == "de.xyz" && a.Name() == "Operation"
      && a.version == Some("1.2.3") && a.parts == ["remote", "sop"]
      && a.ToString() == DOC_EXAMPLE
  {
    DocExampleComposed();
    DocExampleComponents();
    ParsedExample(raw, "jms", "de.xyz", "Operation", Some("1.2.3"), ["remote", "sop"], defaultProvider);
  }

  /** The components of the documentation example meet the conditions of the round trip. */
  lemma DocExampleComponents()
    ensures !Contains("jms", SCHEME) && "de.xyz.Operation" == "de.xyz" + "." + "Operation" && '.' !in "Operation"
    ensures ComposableSegment("de.xyz" + "." + "Operation", Some("1.2.3")) && ComposableParts(["remote", "sop"])
  {
    NoColonNoScheme("jms");
    var parts := ["remote", "sop"];
    assert parts[0] == "remote" && parts[1] == "sop";
  }

  /** What parsing gives for a text composed from a `group.name` path and canonical parts. */
  lemma ParsedExample(raw: string, provider: string, group: string, name: string, version: Option<string>,
                      parts: seq<string>, defaultProvider: string)
    requires raw == Compose(provider, group + "." + name, version, parts)
    requires !Contains(provider, SCHEME) && '.' !in name
    requires ComposableSegment(group + "." + name, version) && ComposableParts(parts)
    ensures var a := Parse(raw, defaultProvider);
      a.provider == provider && a.path == group + "." + name && a.Group() == group && a.Name() == name
      && a.version == version && a.parts == parts
  {
    RoundTrip(provider, group + "." + name, version, parts, defaultProvider);
    GroupNameOf(Parse(raw, defaultProvider), group, name);
  }

  /** The address of the class documentation, jms://de.xyz.Operation:1.2.3/remote/sop, in its pieces. */
  const DOC_EXAMPLE := "jms" + "://" + "de.xyz.Operation" + ":" + "1.2.3" + "/" + "remote" + "/" + "sop"

  /** The group and the name of a path written as `group.name` with a dot-free name. */
  lemma GroupNameOf(a: Address, group: string, name: string)
    requires a.path == group + "." + name && '.' !in name
    ensures a.Group() == group && a.Name() == name
  {
    LastDotSplit(group, name);
    assert a.path[..|group|] == group && a.path[|group| + 1..] == name;
  }

  lemma DocExampleComposed()
    ensures Compose("jms", "de.xyz.Operation", Some("1.2.3"), ["remote", "sop"]) == DOC_EXAMPLE
  {
    ComposeTwoParts("jms", "de.xyz.Operation", "1.2.3", "remote", "sop");
  }

  /** An address text with a version and two parts, written out. */
  lemma ComposeTwoParts(provider: string, path: string, version: string, first: string, second: string)
    ensures Compose(provider, path, Some(version), [first, second])
         == provider + SCHEME + path + ":" + version + "/" + first + "/" + second
  {
    var parts := [first, second];
    assert parts[1..] == [second] && parts[1..][1..] == [];
    assert Slashed(parts[1..]) == "/" + second;
    assert Slashed(parts) == "/" + first + "/" + second;
  }

  /** The last '.' of `group + "." + name` is the one before a dot-free name. */
  lemma LastDotSplit(group: string, name: string)
    requires '.' !in name
    ensures LastIndexOfChar(group + "." + name, '.') == Some(|group|)
  {
    var s := group + "." + name;
    assert s[|group|] == '.';
    assert s[|group| + 1..] == name;
    LastIndexOfCharAt(s, '.', |group|);
  }

  /** lastIndexOf finds the index of `c` that no later `c` follows. */
  lemma {:induction false} LastIndexOfCharAt(s: string, c: char, k: nat)
    requires k < |s| && s[k] == c && c !in s[k + 1..]
    ensures LastIndexOfChar(s, c) == Some(k)
    decreases |s|
  {
    if k < |s| - 1 {
      assert s[|s| - 1] == s[k + 1..][|s| - 2 - k];
      var init := s[..|s| - 1];
      assert init[k + 1..] == s[k + 1..][..|s| - 2 - k];
      LastIndexOfCharAt(init, c, k);
    }
  }

  /** An address without scheme, version or parts: default provider, no version, no parts. */
  lemma BareAddressExample(raw: string, defaultProvider: string)
    requires raw == "de.xyz.Operation"
    ensures var a := Parse(raw, defaultProvider);
      a.provider == defaultProvider && a.path == "de.xyz.Operation" && a.version == None && a.parts == []
  {
    NoColonNoScheme("de.xyz.Operation");
    assert '/' !in "de.xyz.Operation" && ':' !in "de.xyz.Operation";
  }
}
