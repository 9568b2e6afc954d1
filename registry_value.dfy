/**
 * RegistryValue: one entry of the node registry. Every field is fixed by the
 * constructor except the link to the remote copy, which a setter replaces.
 * Values are ordered by their path alone.
 */
module Registry {
  import opened Wrappers
  import opened Strings

  /**
   * Java's String.compareTo: the difference of the first differing
   * characters, or the difference of the lengths when one is a prefix of
   * the other.
   */
  function JavaCompare(a: string, b: string): int
    decreases |a|
  {
    if a == [] || b == [] then |a| - |b|
    else if a[0] != b[0] then a[0] as int - b[0] as int
    else JavaCompare(a[1..], b[1..])
  }

  /** Strict lexicographic order, stated without recursion. */
  ghost predicate LexLess(a: string, b: string) {
    (|a| < |b| && a == b[..|a|])
    || exists k: nat :: k < |a| && k < |b| && a[..k] == b[..k] && a[k] < b[k]
  }

  /** compareTo returns 0 exactly for equal strings. */
  lemma {:induction false} CompareZero(a: string, b: string)
    ensures JavaCompare(a, b) == 0 <==> a == b
    decreases |a|
  {
    if a != [] && b != [] && a[0] == b[0] {
      CompareZero(a[1..], b[1..]);
      assert a == [a[0]] + a[1..] && b == [b[0]] + b[1..];
    }
  }

  /** compareTo is antisymmetric: swapping the arguments negates the result. */
  lemma {:induction false} CompareAntisymmetric(a: string, b: string)
    ensures JavaCompare(a, b) == -JavaCompare(b, a)
    decreases |a|
  {
    if a != [] && b != [] && a[0] == b[0] {
      CompareAntisymmetric(a[1..], b[1..]);
    }
  }

  /** A negative compareTo means lexicographically smaller, and conversely. */
  lemma {:induction false} CompareNegative(a: string, b: string)
    ensures JavaCompare(a, b) < 0 <==> LexLess(a, b)
    decreases |a|
  {
    if a == [] || b == [] {
      if LexLess(a, b) {
        assert |a| < |b|;
      }
    } else if a[0] != b[0] {
      if a[0] < b[0] {
        assert a[..0] == b[..0];
      } else if LexLess(a, b) {
        if !(|a| < |b| && a == b[..|a|]) {
          var k: nat :| k < |a| && k < |b| && a[..k] == b[..k] && a[k] < b[k];
          if k > 0 {
            assert a[..k][0] == b[..k][0];
          }
        }
      }
    } else {
      CompareNegative(a[1..], b[1..]);
      LexLessTail(a, b);
    }
  }

  /** With equal first characters, the order is decided by the tails. */
  lemma LexLessTail(a: string, b: string)
    requires a != [] && b != [] && a[0] == b[0]
    ensures LexLess(a, b) <==> LexLess(a[1..], b[1..])
  {
    var a', b' := a[1..], b[1..];
    if LexLess(a', b') {
      if |a'| < |b'| && a' == b'[..|a'|] {
        assert a == [a[0]] + a' && b[..|a|] == [b[0]] + b'[..|a'|];
      } else {
        var k: nat :| k < |a'| && k < |b'| && a'[..k] == b'[..k] && a'[k] < b'[k];
        assert a[..k + 1] == [a[0]] + a'[..k] && b[..k + 1] == [b[0]] + b'[..k];
        assert a[k + 1] < b[k + 1];
      }
    }
    if LexLess(a, b) {
      if |a| < |b| && a == b[..|a|] {
        assert a' == b'[..|a'|];
      } else {
        var k: nat :| k < |a| && k < |b| && a[..k] == b[..k] && a[k] < b[k];
        if k > 0 {
          assert a'[..k - 1] == a[..k][1..] && b'[..k - 1] == b[..k][1..];
          assert a'[k - 1] < b'[k - 1];
        }
      }
    }
  }

  /** compareTo is transitive on the negative side, so it is a strict order. */
  lemma {:induction false} CompareTransitive(a: string, b: string, c: string)
    requires JavaCompare(a, b) < 0 && JavaCompare(b, c) < 0
    ensures JavaCompare(a, c) < 0
    decreases |a|
  {
    if a != [] && b != [] && c != [] && a[0] == b[0] && b[0] == c[0] {
      CompareTransitive(a[1..], b[1..], c[1..]);
    }
  }

  /**
   * The location/name split of a registry path at its first '@': the text
   * before it and the text after it, or the whole path and no name.
   */
  function SplitPath(path: string): (r: (string, Option<string>))
    ensures r.1.Some? ==> r.0 + "@" + r.1.value == path && '@' !in r.0
    ensures r.1.None? ==> r.0 == path && '@' !in path
  {
    match IndexOfChar(path, '@')
    case None => (path, None)
    case Some(p) =>
      assert path == path[..p] + "@" + path[p + 1..];
      (path[..p], Some(path[p + 1..]))
  }

  /** The split is the unique one at the first '@'. */
  lemma SplitPathUnique(path: string, location: string, name: string)
    requires path == location + "@" + name && '@' !in location
    ensures SplitPath(path) == (location, Some(name))
  {
    assert path[|location|] == '@' && path[..|location|] == location;
    assert IndexOfChar(path, '@') == Some(|location|);
    assert path[|location| + 1..] == name;
  }

  class RegistryValue {
    const value: string
    const source: string
    const updated: Long
    const path: string
    const timeout: Long
    const readOnly: bool
    const persistent: bool
    /** Whether the value was written by this node (its source is the local-source name). */
    const local: bool
    const location: string
    const name: Option<string>
    var remoteValue: RegistryValue?

    /** `sourceLocal` stands for the registry's local-source constant. */
    constructor (value: string, source: string, updated: Long, path: string, timeout: Long,
                 readOnly: bool, persistent: bool, sourceLocal: string)
      ensures this.value == value && this.source == source && this.updated == updated
      ensures this.path == path && this.timeout == timeout
      ensures this.readOnly == readOnly && this.persistent == persistent
      ensures local <==> source == sourceLocal
      ensures name.Some? ==> location + "@" + name.value == path && '@' !in location
      ensures name.None? ==> location == path && '@' !in path
      ensures remoteValue == null
    {
      this.value := value;
      this.source := source;
      this.updated := updated;
      this.path := path;
      this.timeout := timeout;
      this.readOnly := readOnly;
      this.persistent := persistent;
      this.local := source == sourceLocal;
      var split := SplitPath(path);
      this.location := split.0;
      this.name := split.1;
      this.remoteValue := null;
    }

    /** compareTo: the order of the paths, whatever the other fields hold. */
    function CompareTo(o: RegistryValue): (r: int)
      ensures r == 0 <==> path == o.path
      ensures r < 0 <==> LexLess(path, o.path)
      ensures r == -JavaCompare(o.path, path)
    {
      CompareZero(path, o.path);
      CompareNegative(path, o.path);
      CompareAntisymmetric(path, o.path);
      JavaCompare(path, o.path)
    }

    function GetRemoteValue(): (r: RegistryValue?)
      reads this
      ensures r == remoteValue
    {
      remoteValue
    }

    /** Replaces the remote link and nothing else. */
    method SetRemoteValue(v: RegistryValue?)
      modifies this
      ensures remoteValue == v
    {
      remoteValue := v;
    }
  }
}
