/**
 * JmsRegisterServer: the receiving end of the registry topic. Peers announce
 * their operation catalogs as map messages; each announce upserts the
 * announced entries into the shared remote register, stamps them, and then
 * sweeps away every entry of the announcing queue that this announce did not
 * refresh, which gives full-replace semantics per source queue.
 */
module JmsRegister {
  import opened Wrappers
  import opened Strings
  import opened Addressing
  import opened Descriptors

  /** A message on the topic: a map message with string properties and body fields, or anything else. */
  datatype Message =
    | MapMessage(properties: map<string, string>, fields: map<string, string>)
    | OtherMessage

  /** A string property or body field; a missing one reads as null. */
  function Lookup(m: map<string, string>, name: string): Option<string> {
    if name in m then Some(m[name]) else None
  }

  /** The name of the i-th indexed body field, such as `operation0`. */
  function Indexed(prefix: string, i: nat): string {
    prefix + NatToString(i)
  }

  const OPERATION := "operation"

  /**
   * The fixed wiring of this node: its own queue name, the default JMS
   * connection name, the JMS provider's name and the helpers of the
   * operation layer.
   */
  datatype Node = Node(ownQueue: string, connection: string, providerName: string, env: Env)

  /** A message this node handles: a map message that did not come from its own queue. */
  predicate Processed(msg: Message, node: Node) {
    msg.MapMessage? && Lookup(msg.properties, "queue") != Some(node.ownQueue)
  }

  /** `n` announcements are present: `operation0` … `operation{n-1}` exist and `operation{n}` does not. */
  ghost predicate AnnounceCount(fields: map<string, string>, n: nat) {
    Present(fields, n) && Indexed(OPERATION, n) !in fields
  }

  /** `operation0` … `operation{n-1}` are fields of the message. */
  ghost predicate Present(fields: map<string, string>, n: nat) {
    n == 0 || (Present(fields, n - 1) && Indexed(OPERATION, n - 1) in fields)
  }

  /** The register key of a remote entry: `connection,queue,path,version`. */
  function Ident(connection: string, queue: Option<string>, path: string, version: Option<string>): string {
    connection + "," + JavaStr(queue) + "," + path + "," + JavaStr(version)
  }

  /** The address of an announced operation: `jms://path:version/queue/connection`. */
  function RemoteAddress(node: Node, queue: Option<string>, path: string, version: Option<string>): Address {
    Parse(node.providerName + "://" + path + ":" + JavaStr(version) + "/" + JavaStr(queue) + "/" + node.connection,
          node.env.defaultProvider)
  }

  /** The tags of an announce: the ','-split tag field, none when it is missing. */
  function RemoteTags(tags: Option<string>): (r: set<string>)
    ensures tags.None? ==> r == {}
    ensures forall t :: t in r ==> ',' !in t
  {
    match tags
    case None => {}
    case Some(t) =>
      JavaSplitPieces(t, ',');
      Elements(JavaSplit(t, ','))
  }

  /** The fields of the j-th announcement of a message. */
  datatype Announcement = Announcement(path: string, version: Option<string>, tags: Option<string>, title: Option<string>)

  /** The j-th announcement: `operation{j}`, `version{j}`, `tags{j}` and `title{j}`, the last three possibly null. */
  function AnnouncementAt(fields: map<string, string>, j: nat): (a: Announcement)
    requires Indexed(OPERATION, j) in fields
    ensures a.path == fields[Indexed(OPERATION, j)]
    ensures a.version == Lookup(fields, Indexed("version", j)) && a.tags == Lookup(fields, Indexed("tags", j))
    ensures a.title == Lookup(fields, Indexed("title", j))
  {
    Announcement(fields[Indexed(OPERATION, j)], Lookup(fields, Indexed("version", j)),
                 Lookup(fields, Indexed("tags", j)), Lookup(fields, Indexed("title", j)))
  }

  /** The entry created for an announcement not seen before (its stamp is set right after). */
  function NewEntry(node: Node, queue: Option<string>, a: Announcement): Descriptor {
    var address := RemoteAddress(node, queue, a.path, a.version);
    Descriptor(address, address.path, Some(AddressVersionString(address, node.env)), a.title, RemoteTags(a.tags),
               None, 0, None)
  }

  /** How this node creates the entries of announcements from `queue`. */
  function Fresh(node: Node, queue: Option<string>): Announcement -> Descriptor {
    a => NewEntry(node, queue, a)
  }

  /** The first `n` announcements of a message, in field order. */
  function Announcements(fields: map<string, string>, n: nat): (anns: seq<Announcement>)
    requires Present(fields, n)
    ensures |anns| == n
  {
    if n == 0 then [] else Announcements(fields, n - 1) + [AnnouncementAt(fields, n - 1)]
  }

  /** The key an announcement from `queue` is stored under. */
  function AnnouncedIdent(connection: string, queue: Option<string>, a: Announcement): string {
    Ident(connection, queue, a.path, a.version)
  }

  /** One announcement, with `make` creating entries: create the entry if absent, then stamp it. */
  function UpsertOne(make: Announcement -> Descriptor, connection: string, register: map<string, Descriptor>,
                     queue: Option<string>, a: Announcement, stamp: int): (r: map<string, Descriptor>)
    ensures r.Keys == register.Keys + {AnnouncedIdent(connection, queue, a)}
    ensures r[AnnouncedIdent(connection, queue, a)].lastUpdated == stamp
    ensures forall k :: k in register && k != AnnouncedIdent(connection, queue, a) ==> r[k] == register[k]
  {
    var ident := AnnouncedIdent(connection, queue, a);
    var d := if ident in register then register[ident] else make(a);
    register[ident := d.(lastUpdated := stamp)]
  }

  /** The register after the announcements `anns`, taken in order, with `make` creating entries. */
  function UpsertAll(make: Announcement -> Descriptor, connection: string, register: map<string, Descriptor>,
                     queue: Option<string>, anns: seq<Announcement>, stamp: int): map<string, Descriptor>
    decreases |anns|
  {
    if anns == [] then register
    else UpsertOne(make, connection, UpsertAll(make, connection, register, queue, anns[..|anns| - 1], stamp),
                   queue, anns[|anns| - 1], stamp)
  }

  /** The register after this node has taken in the announcements `anns` from `queue`. */
  function Upserted(node: Node, register: map<string, Descriptor>, queue: Option<string>,
                    anns: seq<Announcement>, stamp: int): map<string, Descriptor>
  {
    UpsertAll(Fresh(node, queue), node.connection, register, queue, anns, stamp)
  }

  /**
   * The sweep's test for one entry: its first address part is the announcing
   * queue (a null queue equals nothing) and it was stamped before `now`.
   */
  predicate Stale(d: Descriptor, queue: Option<string>, now: int) {
    FromQueue(d, queue) && d.lastUpdated < now
  }

  /** The entry was announced from `queue`: its first address part names it. */
  predicate FromQueue(d: Descriptor, queue: Option<string>) {
    d.address.parts != [] && queue == Some(d.address.parts[0])
  }

  /** The register with every stale entry removed. */
  function Swept(register: map<string, Descriptor>, queue: Option<string>, now: int): map<string, Descriptor> {
    map k | k in register && !Stale(register[k], queue, now) :: register[k]
  }

  /**
   * What a sweep leaves when it stops on an entry without address parts:
   * some of the stale entries removed, everything else as it was.
   */
  ghost predicate PartlySwept(after: map<string, Descriptor>, before: map<string, Descriptor>,
                              queue: Option<string>, now: int) {
    after.Keys <= before.Keys
    && (forall k :: k in after ==> after[k] == before[k])
    && (forall k :: k in before && k !in after ==> Stale(before[k], queue, now))
  }

  /** A sweep fails exactly when some entry's address has no part to compare. */
  ghost predicate HasPartlessEntry(register: map<string, Descriptor>) {
    exists k :: k in register && register[k].address.parts == []
  }

  class JmsRegisterServer {
    const node: Node
    /** The shared remote register of the JMS API, keyed by Ident. */
    var register: map<string, Descriptor>
    /** When a peer last asked for this node's catalog. */
    var lastRegistryRequest: int
    /** How often this node was asked to announce its local operations again. */
    var reannouncements: nat

    constructor (node: Node)
      ensures this.node == node && register == map[] && lastRegistryRequest == 0 && reannouncements == 0
    {
      this.node := node;
      register := map[];
      lastRegistryRequest := 0;
      reannouncements := 0;
    }

    /**
     * receivedOneWay. `clock` is the time a request message is recorded at,
     * `now` the time captured before an announce loop and `stamp` the time
     * announced entries are stamped with. `failed` reports the exception the
     * sweep raises on an entry without address parts; `count` is the number
     * of announcements read.
     */
    method ReceivedOneWay(msg: Message, clock: int, now: int, stamp: int) returns (failed: bool, ghost count: nat)
      modifies this
      ensures !Processed(msg, node) ==>
        register == old(register) && lastRegistryRequest == old(lastRegistryRequest)
        && reannouncements == old(reannouncements) && !failed
      ensures Processed(msg, node) && Lookup(msg.properties, "type") == Some("request") ==>
        register == old(register) && lastRegistryRequest == clock
        && reannouncements == old(reannouncements) + 1 && !failed
      ensures Processed(msg, node) && Lookup(msg.properties, "type") == Some("operations") ==>
        lastRegistryRequest == old(lastRegistryRequest) && reannouncements == old(reannouncements)
        && AnnounceCount(msg.fields, count)
        && var upserted := Upserted(node, old(register), Lookup(msg.properties, "queue"), Announcements(msg.fields, count), stamp);
           (failed <==> HasPartlessEntry(upserted))
           && (!failed ==> register == Swept(upserted, Lookup(msg.properties, "queue"), now))
           && (failed ==> PartlySwept(register, upserted, Lookup(msg.properties, "queue"), now))
      ensures Processed(msg, node) && Lookup(msg.properties, "type") != Some("request")
              && Lookup(msg.properties, "type") != Some("operations") ==>
        register == old(register) && lastRegistryRequest == old(lastRegistryRequest)
        && reannouncements == old(reannouncements) && !failed
    {
      failed := false;
      count := 0;
      if Processed(msg, node) {
        var kind := Lookup(msg.properties, "type");
        if kind == Some("request") {
          lastRegistryRequest := clock;
          reannouncements := reannouncements + 1;
        }
        if kind == Some("operations") {
          var queue := Lookup(msg.properties, "queue");
          count := Announce(msg.fields, queue, stamp);
          failed := Sweep(queue, now);
        }
      }
    }

    /** The announce loop, applied to the register. */
    method Announce(fields: map<string, string>, queue: Option<string>, stamp: int) returns (cnt: nat)
      modifies this`register
      ensures AnnounceCount(fields, cnt)
      ensures register == Upserted(node, old(register), queue, Announcements(fields, cnt), stamp)
    {
      var reg;
      cnt, reg := AnnounceAll(Fresh(node, queue), node.connection, register, fields, queue, stamp);
      register := reg;
    }

    /**
     * The removeIf sweep, applied to the register; `failed` reports the
     * exception raised on an entry without address parts.
     */
    method Sweep(queue: Option<string>, now: int) returns (failed: bool)
      modifies this`register
      ensures failed <==> HasPartlessEntry(old(register))
      ensures !failed ==> register == Swept(old(register), queue, now)
      ensures failed ==> PartlySwept(register, old(register), queue, now)
    {
      var reg;
      failed, reg := SweepAll(register, queue, now);
      register := reg;
    }
  }

  /**
   * The removeIf loop over the entries of `start` in hash order: stale
   * entries are dropped; the first entry without address parts raises,
   * leaving what was dropped so far dropped.
   */
  method SweepAll(start: map<string, Descriptor>, queue: Option<string>, now: int)
    returns (failed: bool, reg: map<string, Descriptor>)
    ensures failed <==> HasPartlessEntry(start)
    ensures !failed ==> reg == Swept(start, queue, now)
    ensures failed ==> PartlySwept(reg, start, queue, now)
  {
    failed := false;
    reg := start;
    var remaining := start.Keys;
    while remaining != {}
      invariant remaining <= reg.Keys
      invariant PartlySwept(reg, start, queue, now)
      invariant forall k :: k in start && k !in remaining ==>
        start[k].address.parts != [] && (k in reg <==> !Stale(start[k], queue, now))
      decreases |remaining|
    {
      var k :| k in remaining;
      var d := reg[k];
      if d.address.parts == [] {
        assert start[k].address.parts == [];
        failed := true;
        break;
      }
      if queue == Some(d.address.parts[0]) && d.lastUpdated < now {
        reg := reg - {k};
      }
      remaining := remaining - {k};
    }
    if !failed {
      SweptWhenDone(reg, start, queue, now);
    }
  }

  /** A partial sweep that has decided every entry of `start` is the full sweep, and nothing in `start` lacks parts. */
  lemma SweptWhenDone(reg: map<string, Descriptor>, start: map<string, Descriptor>, queue: Option<string>, now: int)
    requires PartlySwept(reg, start, queue, now)
    requires forall k :: k in start ==> start[k].address.parts != [] && (k in reg <==> !Stale(start[k], queue, now))
    ensures reg == Swept(start, queue, now)
    ensures !HasPartlessEntry(start)
  {
  }

  /**
   * The announce loop: reads `operation{i}` for i = 0, 1, … until one is
   * missing, upserting each announcement into `start`.
   */
  method AnnounceAll(make: Announcement -> Descriptor, connection: string, start: map<string, Descriptor>,
                     fields: map<string, string>, queue: Option<string>, stamp: int)
    returns (cnt: nat, reg: map<string, Descriptor>)
    ensures AnnounceCount(fields, cnt)
    ensures reg == UpsertAll(make, connection, start, queue, Announcements(fields, cnt), stamp)
  {
    cnt := 0;
    reg := start;
    while Indexed(OPERATION, cnt) in fields
      invariant Present(fields, cnt)
      invariant reg == UpsertAll(make, connection, start, queue, Announcements(fields, cnt), stamp)
      decreases |fields.Keys| - cnt
    {
      AnnouncementBound(fields, cnt + 1);
      var a := AnnouncementAt(fields, cnt);
      ghost var prior := reg;
      reg := UpsertOne(make, connection, reg, queue, a, stamp);
      AnnounceStep(make, connection, start, fields, queue, stamp, cnt, prior);
      cnt := cnt + 1;
    }
  }

  /** One more announcement taken in: the register after `cnt + 1` is the one after `cnt`, upserted once more. */
  lemma AnnounceStep(make: Announcement -> Descriptor, connection: string, start: map<string, Descriptor>,
                     fields: map<string, string>, queue: Option<string>, stamp: int, cnt: nat,
                     reg: map<string, Descriptor>)
    requires Present(fields, cnt) && Indexed(OPERATION, cnt) in fields
    requires reg == UpsertAll(make, connection, start, queue, Announcements(fields, cnt), stamp)
    ensures Present(fields, cnt + 1)
    ensures UpsertOne(make, connection, reg, queue, AnnouncementAt(fields, cnt), stamp)
         == UpsertAll(make, connection, start, queue, Announcements(fields, cnt + 1), stamp)
  {
    var a := AnnouncementAt(fields, cnt);
    assert Announcements(fields, cnt + 1) == Announcements(fields, cnt) + [a];
    UpsertAllSnoc(make, connection, start, queue, Announcements(fields, cnt), a, stamp);
  }

  /** Taking in one more announcement is one more upsert on the register so far. */
  lemma UpsertAllSnoc(make: Announcement -> Descriptor, connection: string, start: map<string, Descriptor>,
                      queue: Option<string>, anns: seq<Announcement>, a: Announcement, stamp: int)
    ensures UpsertAll(make, connection, start, queue, anns + [a], stamp)
         == UpsertOne(make, connection, UpsertAll(make, connection, start, queue, anns, stamp), queue, a, stamp)
  {
    assert (anns + [a])[..|anns|] == anns;
  }

  /** The names `operation0` … `operation{n-1}`. */
  ghost function NamesBelow(n: nat): set<string>
    decreases n
  {
    if n == 0 then {} else NamesBelow(n - 1) + {Indexed(OPERATION, n - 1)}
  }

  /** Each of those names carries, after the prefix, an index below `n`. */
  lemma {:induction false} NamesBelowIndices(n: nat)
    ensures forall s :: s in NamesBelow(n) ==> |OPERATION| <= |s| && ParseNat(s[|OPERATION|..]) < n
    decreases n
  {
    if n > 0 {
      NamesBelowIndices(n - 1);
      var key := Indexed(OPERATION, n - 1);
      assert key[|OPERATION|..] == NatToString(n - 1);
      ParseNatToString(n - 1);
    }
  }

  /** The names are distinct fields of the message. */
  lemma {:induction false} NamesBelowPresent(fields: map<string, string>, n: nat)
    requires Present(fields, n)
    ensures NamesBelow(n) <= fields.Keys && |NamesBelow(n)| == n
    decreases n
  {
    if n > 0 {
      NamesBelowPresent(fields, n - 1);
      FreshName(n - 1);
    }
  }

  /** The n-th name is none of the earlier ones. */
  lemma FreshName(n: nat)
    ensures Indexed(OPERATION, n) !in NamesBelow(n)
  {
    var key := Indexed(OPERATION, n);
    assert key[|OPERATION|..] == NatToString(n);
    ParseNatToString(n);
    NamesBelowIndices(n);
  }

  /**
   * The announce loop's measure: a message with `n` announcements has at
   * least `n` fields, so the loop ends.
   */
  lemma AnnouncementBound(fields: map<string, string>, n: nat)
    requires Present(fields, n)
    ensures n <= |fields.Keys|
  {
    NamesBelowPresent(fields, n);
    SubsetCard(NamesBelow(n), fields.Keys);
  }

  /** The register keys the announcements `anns` from `queue` are stored under. */
  function AnnouncedIdents(connection: string, queue: Option<string>, anns: seq<Announcement>): set<string> {
    set a | a in anns :: AnnouncedIdent(connection, queue, a)
  }

  /** The keys of a longer list of announcements: those of the shorter one and the last one's key. */
  lemma AnnouncedIdentsSnoc(connection: string, queue: Option<string>, anns: seq<Announcement>)
    requires anns != []
    ensures AnnouncedIdents(connection, queue, anns)
         == AnnouncedIdents(connection, queue, anns[..|anns| - 1]) + {AnnouncedIdent(connection, queue, anns[|anns| - 1])}
  {
    assert anns == anns[..|anns| - 1] + [anns[|anns| - 1]];
  }

  /** Taking in announcements adds exactly their keys to the register. */
  lemma {:induction false} UpsertAllKeys(make: Announcement -> Descriptor, connection: string,
                                         r: map<string, Descriptor>, queue: Option<string>,
                                         anns: seq<Announcement>, stamp: int)
    ensures UpsertAll(make, connection, r, queue, anns, stamp).Keys == r.Keys + AnnouncedIdents(connection, queue, anns)
    decreases |anns|
  {
    if anns != [] {
      UpsertAllKeys(make, connection, r, queue, anns[..|anns| - 1], stamp);
      AnnouncedIdentsSnoc(connection, queue, anns);
    }
  }

  /** Every announced entry carries the stamp of this announce. */
  lemma {:induction false} UpsertAllStamps(make: Announcement -> Descriptor, connection: string,
                                           r: map<string, Descriptor>, queue: Option<string>,
                                           anns: seq<Announcement>, stamp: int)
    ensures var u := UpsertAll(make, connection, r, queue, anns, stamp);
      forall k :: k in AnnouncedIdents(connection, queue, anns) ==> k in u && u[k].lastUpdated == stamp
    decreases |anns|
  {
    if anns != [] {
      UpsertAllStamps(make, connection, r, queue, anns[..|anns| - 1], stamp);
      AnnouncedIdentsSnoc(connection, queue, anns);
    }
  }

  /**
   * An entry that was in the register keeps everything but its stamp, and
   * one whose key was not announced is left exactly as it was.
   */
  lemma {:induction false} UpsertAllKeeps(make: Announcement -> Descriptor, connection: string,
                                          r: map<string, Descriptor>, queue: Option<string>,
                                          anns: seq<Announcement>, stamp: int)
    ensures var u := UpsertAll(make, connection, r, queue, anns, stamp);
      && (forall k :: k in r ==> k in u && u[k] == r[k].(lastUpdated := u[k].lastUpdated))
      && (forall k :: k in r && k !in AnnouncedIdents(connection, queue, anns) ==> u[k] == r[k])
    decreases |anns|
  {
    if anns != [] {
      UpsertAllKeeps(make, connection, r, queue, anns[..|anns| - 1], stamp);
      AnnouncedIdentsSnoc(connection, queue, anns);
    }
  }

  /** An entry that was not in the register is created from one of the announcements stored under its key. */
  lemma {:induction false} UpsertAllCreates(make: Announcement -> Descriptor, connection: string,
                                            r: map<string, Descriptor>, queue: Option<string>,
                                            anns: seq<Announcement>, stamp: int, k: string)
    requires k in AnnouncedIdents(connection, queue, anns) && k !in r
    ensures var u := UpsertAll(make, connection, r, queue, anns, stamp);
      k in u && exists a :: a in anns && AnnouncedIdent(connection, queue, a) == k && u[k] == make(a).(lastUpdated := stamp)
    decreases |anns|
  {
    UpsertAllKeys(make, connection, r, queue, anns, stamp);
    var init := anns[..|anns| - 1];
    var last := anns[|anns| - 1];
    var prev := UpsertAll(make, connection, r, queue, init, stamp);
    AnnouncedIdentsSnoc(connection, queue, anns);
    UpsertAllKeys(make, connection, r, queue, init, stamp);
    if k == AnnouncedIdent(connection, queue, last) && k !in prev {
      assert last in anns;
    } else {
      UpsertAllCreates(make, connection, r, queue, init, stamp, k);
      var a :| a in init && AnnouncedIdent(connection, queue, a) == k
            && prev[k] == make(a).(lastUpdated := stamp);
      assert a in anns;
    }
  }

  /**
   * Full replace per source queue: after an announce stamped no earlier than
   * the sweep's `now`, every announced entry is present with the new stamp,
   * and an entry nobody announced stays, unchanged, exactly when it is not
   * a stale entry of the announcing queue.
   */
  lemma AnnounceReplaces(make: Announcement -> Descriptor, connection: string, r: map<string, Descriptor>,
                         queue: Option<string>, anns: seq<Announcement>, stamp: int, now: int)
    requires now <= stamp
    ensures var after := Swept(UpsertAll(make, connection, r, queue, anns, stamp), queue, now);
      var ids := AnnouncedIdents(connection, queue, anns);
      && (forall k :: k in ids ==> k in after && after[k].lastUpdated == stamp)
      && (forall k :: k in r && k !in ids ==> (k in after <==> !Stale(r[k], queue, now)))
      && (forall k :: k in after && k !in ids ==> k in r && after[k] == r[k])
  {
    UpsertAllKeys(make, connection, r, queue, anns, stamp);
    UpsertAllStamps(make, connection, r, queue, anns, stamp);
    UpsertAllKeeps(make, connection, r, queue, anns, stamp);
  }

  /**
   * When every entry the register held was stamped before `now`, what is
   * left of the announcing queue afterwards is exactly what it announced.
   */
  lemma FullReplace(make: Announcement -> Descriptor, connection: string, r: map<string, Descriptor>,
                    queue: Option<string>, anns: seq<Announcement>, stamp: int, now: int)
    requires now <= stamp
    requires forall k :: k in r ==> r[k].lastUpdated < now
    ensures var after := Swept(UpsertAll(make, connection, r, queue, anns, stamp), queue, now);
      forall k :: k in after && FromQueue(after[k], queue) ==> k in AnnouncedIdents(connection, queue, anns)
  {
    AnnounceReplaces(make, connection, r, queue, anns, stamp, now);
  }

  /**
   * The address of an announced operation reads back as announced: this
   * node's JMS provider, the announced path, the version text (with a null
   * version read back as the text "null"), and the parts queue and
   * connection -- so the entry belongs to the announcing queue.
   */
  lemma RemoteAddressParts(node: Node, queue: Option<string>, path: string, version: Option<string>)
    requires !Contains(node.providerName, SCHEME)
    requires ComposableSegment(path, Some(JavaStr(version)))
    requires '/' !in JavaStr(queue) && '/' !in node.connection && node.connection != ""
    ensures var a := RemoteAddress(node, queue, path, version);
      && a.provider == node.providerName && a.path == path && a.version == Some(JavaStr(version))
      && a.parts == [JavaStr(queue), node.connection]
  {
    var parts := [JavaStr(queue), node.connection];
    assert Slashed(parts) == "/" + JavaStr(queue) + "/" + node.connection by {
      assert parts[1..] == [node.connection];
      assert Slashed(parts[1..][1..]) == "";
    }
    assert node.providerName + "://" + path + ":" + JavaStr(version) + "/" + JavaStr(queue) + "/" + node.connection
        == Compose(node.providerName, path, Some(JavaStr(version)), parts);
    RoundTrip(node.providerName, path, Some(JavaStr(version)), parts, node.env.defaultProvider);
  }

  /** A created entry belongs to the announcing queue whenever that queue is named. */
  lemma NewEntryFromQueue(node: Node, queue: Option<string>, a: Announcement)
    requires !Contains(node.providerName, SCHEME)
    requires ComposableSegment(a.path, Some(JavaStr(a.version)))
    requires '/' !in JavaStr(queue) && '/' !in node.connection && node.connection != ""
    ensures var d := NewEntry(node, queue, a);
      d.address.parts != [] && (queue.Some? ==> FromQueue(d, queue)) && d.path == a.path
      && d.title == a.title && d.acl.None? && d.handle.None?
  {
    RemoteAddressParts(node, queue, a.path, a.version);
  }

  /**
   * Staleness across two announces from one queue: operations A and B
   * announced at `t1`, then only A at `t2`; a sweep after `t1` drops B and
   * keeps A, stamped `t2`. It takes an entry maker that files B under the
   * announcing queue, as this node's does (NewEntryFromQueue).
   */
  lemma WithdrawnOperationDropped(make: Announcement -> Descriptor, connection: string, queue: string,
                                  opA: Announcement, opB: Announcement, t1: int, now1: int, t2: int, now2: int)
    requires now1 <= t1 < now2 <= t2
    requires AnnouncedIdent(connection, Some(queue), opA) != AnnouncedIdent(connection, Some(queue), opB)
    requires FromQueue(make(opB), Some(queue))
    ensures var idA := AnnouncedIdent(connection, Some(queue), opA);
      var idB := AnnouncedIdent(connection, Some(queue), opB);
      var r1 := Swept(UpsertAll(make, connection, map[], Some(queue), [opA, opB], t1), Some(queue), now1);
      var r2 := Swept(UpsertAll(make, connection, r1, Some(queue), [opA], t2), Some(queue), now2);
      idB in r1 && idB !in r2 && idA in r2 && r2[idA].lastUpdated == t2
  {
    var idA := AnnouncedIdent(connection, Some(queue), opA);
    var idB := AnnouncedIdent(connection, Some(queue), opB);
    var u1 := UpsertAll(make, connection, map[], Some(queue), [opA, opB], t1);
    var r1 := Swept(u1, Some(queue), now1);
    assert idB in AnnouncedIdents(connection, Some(queue), [opA, opB]);
    AnnounceReplaces(make, connection, map[], Some(queue), [opA, opB], t1, now1);
    UpsertAllCreates(make, connection, map[], Some(queue), [opA, opB], t1, idB);
    assert u1[idB] == make(opB).(lastUpdated := t1);
    assert Stale(r1[idB], Some(queue), now2);
    assert AnnouncedIdents(connection, Some(queue), [opA]) == {idA};
    AnnounceReplaces(make, connection, r1, Some(queue), [opA], t2, now2);
  }

  /** A subset of a finite set is no larger. */
  lemma SubsetCard(a: set<string>, b: set<string>)
    requires a <= b
    ensures |a| <= |b|
  {
    assert b == a + (b - a);
  }
}
