// The two decision rules the keyspace event watcher uses to explain why a
// primary target is unavailable: an in-flight resharding, or a primary that
// stopped serving. Shard key ranges are read from shard names of the form
// "<hexstart>-<hexend>", where an empty bound is unbounded.
module KeyspaceEvents {
  import opened Wrappers
  import opened TopoData

  /** The watcher's view of one shard. */
  datatype ShardState = ShardState(
    target: Target,
    serving: bool,
    externallyReparented: int,
    currentPrimary: Option<TabletAlias>)

  /** The watcher's view of one keyspace. */
  datatype KeyspaceState = KeyspaceState(
    keyspace: string,
    shards: map<string, ShardState>,
    lastKeyspace: Option<SrvKeyspace>,
    consistent: bool,
    deleted: bool)

  /** The watcher's keyspaces, by name. */
  datatype KeyspaceEventWatcher = KeyspaceEventWatcher(keyspaces: map<string, KeyspaceState>)

  // ---------------------------------------------------------------------------
  // Hex and shard names

  predicate IsHexChar(c: char)
  {
    '0' <= c <= '9' || 'a' <= c <= 'f' || 'A' <= c <= 'F'
  }

  function HexValue(c: char): (v: nat)
    requires IsHexChar(c)
    ensures v < 16
  {
    if '0' <= c <= '9' then c as nat - '0' as nat
    else if 'a' <= c <= 'f' then c as nat - 'a' as nat + 10
    else c as nat - 'A' as nat + 10
  }

  function HexChar(v: nat): (c: char)
    requires v < 16
    ensures '0' <= c <= '9' || 'a' <= c <= 'f'
    ensures IsHexChar(c) && HexValue(c) == v && c != '-'
  {
    if v < 10 then ('0' as nat + v) as char else ('a' as nat + v - 10) as char
  }

  /** Decodes pairs of hex digits into bytes; odd length or a non-hex
      character fails. */
  function HexDecode(s: string): (r: Option<seq<byte>>)
    ensures r.Some? ==> 2 * |r.value| == |s|
    ensures r.None? <==> |s| % 2 == 1 || exists i :: 0 <= i < |s| && !IsHexChar(s[i])
  {
    if s == [] then Some([])
    else if |s| == 1 || !IsHexChar(s[0]) || !IsHexChar(s[1]) then None
    else
      match HexDecode(s[2..])
      case None => None
      case Some(rest) => Some([(16 * HexValue(s[0]) + HexValue(s[1])) as byte] + rest)
  }

  /** Lower-case hex rendering of bytes. */
  function HexEncode(b: seq<byte>): (s: string)
    ensures |s| == 2 * |b|
    ensures forall i :: 0 <= i < |s| ==> '0' <= s[i] <= '9' || 'a' <= s[i] <= 'f'
    ensures forall i :: 0 <= i < |s| ==> IsHexChar(s[i]) && s[i] != '-'
  {
    if b == [] then "" else [HexChar(b[0] as nat / 16), HexChar(b[0] as nat % 16)] + HexEncode(b[1..])
  }

  lemma {:induction false} HexRoundTrip(b: seq<byte>)
    ensures HexDecode(HexEncode(b)) == Some(b)
  {
    if b != [] {
      var s := HexEncode(b);
      assert s[2..] == HexEncode(b[1..]);
      HexRoundTrip(b[1..]);
      assert HexValue(s[0]) == b[0] as nat / 16 && HexValue(s[1]) == b[0] as nat % 16;
      assert [b[0]] + b[1..] == b;
    }
  }

  /** The index of the first '-' in `s`, if any. */
  function DashIndex(s: string): (r: Option<nat>)
    ensures r.Some? ==> r.value < |s| && s[r.value] == '-' && forall j :: 0 <= j < r.value ==> s[j] != '-'
    ensures r.None? ==> forall j :: 0 <= j < |s| ==> s[j] != '-'
  {
    if s == [] then None
    else if s[0] == '-' then Some(0)
    else match DashIndex(s[1..])
      case None => None
      case Some(i) => Some(i + 1)
  }

  predicate AllHex(s: string)
  {
    forall i :: 0 <= i < |s| ==> IsHexChar(s[i])
  }

  /** How a shard name reads as a key range. */
  datatype ShardRange = NotRange | Range(keyRange: KeyRange) | BadRange

  /** A name of hex digits around one '-' names a key range; any other name
      does not; a range name whose halves are not whole bytes is refused. */
  function ParseShardName(name: string): (r: ShardRange)
    ensures DashIndex(name).None? ==> r.NotRange?
    ensures r.Range? ==> |name| == 2 * |r.keyRange.start| + 1 + 2 * |r.keyRange.end| && name[2 * |r.keyRange.start|] == '-'
    ensures r.BadRange? <==>
              && DashIndex(name).Some?
              && AllHex(name[..DashIndex(name).value]) && AllHex(name[DashIndex(name).value + 1..])
              && (DashIndex(name).value % 2 == 1 || (|name| - DashIndex(name).value - 1) % 2 == 1)
  {
    match DashIndex(name)
    case None => NotRange
    case Some(i) =>
      if !AllHex(name[..i]) || !AllHex(name[i + 1..]) then NotRange
      else
        match (HexDecode(name[..i]), HexDecode(name[i + 1..]))
        case (Some(s), Some(e)) => Range(KeyRange(s, e))
        case _ => BadRange
  }

  /** The canonical shard name of a key range. */
  function KeyRangeString(kr: KeyRange): string
  {
    HexEncode(kr.start) + "-" + HexEncode(kr.end)
  }

  /** The name of a key range reads back as that key range. */
  lemma ShardNameRoundTrip(kr: KeyRange)
    ensures ParseShardName(KeyRangeString(kr)) == Range(kr)
  {
    var a, b := HexEncode(kr.start), HexEncode(kr.end);
    var name := a + "-" + b;
    assert name[|a|] == '-';
    assert DashIndex(name) == Some(|a|);
    assert name[..|a|] == a && name[|a| + 1..] == b;
    HexRoundTrip(kr.start);
    HexRoundTrip(kr.end);
  }

  /** Lexicographic byte order (a proper prefix is smaller). */
  predicate BytesLess(a: seq<byte>, b: seq<byte>)
  {
    if a == [] then b != []
    else if b == [] then false
    else if a[0] != b[0] then a[0] < b[0]
    else BytesLess(a[1..], b[1..])
  }

  /** Half-open key ranges share a key. An empty end is unbounded. */
  predicate KeyRangesIntersect(a: KeyRange, b: KeyRange)
  {
    (|a.end| == 0 || BytesLess(b.start, a.end)) && (|b.end| == 0 || BytesLess(a.start, b.end))
  }

  /** No byte string is below itself. */
  lemma {:induction false} BytesLessIrreflexive(a: seq<byte>)
    ensures !BytesLess(a, a)
  {
    if a != [] {
      BytesLessIrreflexive(a[1..]);
    }
  }

  /** Two ranges that meet at a bounded key share no key, in either order. */
  lemma AdjacentRangesDisjoint(start: seq<byte>, mid: seq<byte>, end: seq<byte>)
    requires mid != []
    ensures !KeyRangesIntersect(KeyRange(start, mid), KeyRange(mid, end))
    ensures !KeyRangesIntersect(KeyRange(mid, end), KeyRange(start, mid))
  {
    BytesLessIrreflexive(mid);
  }

  /** A range with a key in it intersects itself. */
  lemma NonEmptyRangeIntersectsItself(kr: KeyRange)
    requires |kr.end| == 0 || BytesLess(kr.start, kr.end)
    ensures KeyRangesIntersect(kr, kr)
  {
  }

  // ---------------------------------------------------------------------------
  // The decision rules

  /** Some shard of `kss` with a different key range that overlaps `ckr` is
      serving. */
  predicate OverlappingShardServing(kss: KeyspaceState, ckr: KeyRange)
  {
    exists name | name in kss.shards :: OverlapsAndServes(kss.shards[name], ckr)
  }

  /** Shard `s` covers a key range other than `ckr` that overlaps it, and
      serves. */
  predicate OverlapsAndServes(s: ShardState, ckr: KeyRange)
  {
    match ParseShardName(s.target.shard)
    case Range(skr) => skr != ckr && KeyRangesIntersect(ckr, skr) && s.serving
    case _ => false
  }

  /** The target is unavailable because its keyspace is being resharded:
      the keyspace is inconsistent, the target is a primary, and a shard of
      another, overlapping key range is serving. */
  predicate TargetIsBeingResharded(kew: KeyspaceEventWatcher, target: Target)
  {
    && target.tabletType == Primary
    && target.keyspace in kew.keyspaces
    && var kss := kew.keyspaces[target.keyspace];
       && !kss.consistent
       && match ParseShardName(target.shard)
          case Range(ckr) => OverlappingShardServing(kss, ckr)
          case _ => false
  }

  /** The target is unavailable because its primary is not serving: the
      keyspace is inconsistent, the target is a primary, its shard is not
      serving, a reparent was seen and the current primary is known. The
      current primary of the shard is returned alongside. */
  function PrimaryIsNotServing(kew: KeyspaceEventWatcher, target: Target): (r: (Option<TabletAlias>, bool))
    ensures r.1 ==> r.0.Some? && target.tabletType == Primary && target.keyspace in kew.keyspaces && !kew.keyspaces[target.keyspace].consistent
    ensures target.keyspace !in kew.keyspaces || target.shard !in kew.keyspaces[target.keyspace].shards ==> r == (None, false)
  {
    if target.tabletType != Primary || target.keyspace !in kew.keyspaces then (None, false)
    else
      var kss := kew.keyspaces[target.keyspace];
      if target.shard !in kss.shards then (None, false)
      else
        var s := kss.shards[target.shard];
        (s.currentPrimary, !s.serving && !kss.consistent && s.externallyReparented != 0 && s.currentPrimary.Some?)
  }

  /** Neither cause is reported for a consistent keyspace or a non-primary
      target. */
  lemma {:induction false} ConsistentOrReplicaNeither(kew: KeyspaceEventWatcher, target: Target)
    requires target.tabletType != Primary || (target.keyspace in kew.keyspaces && kew.keyspaces[target.keyspace].consistent)
    ensures !TargetIsBeingResharded(kew, target) && !PrimaryIsNotServing(kew, target).1
  {
  }

  /** The primary-down rule holds exactly when its five conditions do. */
  lemma PrimaryDownConditions(kew: KeyspaceEventWatcher, target: Target)
    requires target.keyspace in kew.keyspaces && target.shard in kew.keyspaces[target.keyspace].shards
    ensures var kss := kew.keyspaces[target.keyspace];
            var s := kss.shards[target.shard];
            PrimaryIsNotServing(kew, target).1 <==>
              (!kss.consistent && target.tabletType == Primary && !s.serving
               && s.externallyReparented != 0 && s.currentPrimary.Some?)
  {
  }

  // ---------------------------------------------------------------------------
  // Topology watch callback

  /** The watch callback for the keyspace's serving graph. A missing keyspace
      marks the state deleted and stops the watch; any other error keeps
      watching with the state unchanged; an unchanged snapshot keeps watching;
      a changed one (including no snapshot after one) is stored and makes the
      keyspace inconsistent. The second component says whether to keep
      watching. */
  function OnSrvKeyspace(kss: KeyspaceState, newKeyspace: Option<SrvKeyspace>, newError: Option<TopoError>)
    : (r: (KeyspaceState, bool))
    ensures newError == Some(NoNode) ==> !r.1 && r.0.deleted
    ensures newError.None? && newKeyspace != kss.lastKeyspace ==>
              r.1 && r.0.lastKeyspace == newKeyspace && !r.0.consistent
    ensures newError != Some(NoNode) ==> r.1
    ensures r.0.keyspace == kss.keyspace && r.0.shards == kss.shards
  {
    if newError == Some(NoNode) then (kss.(deleted := true), false)
    else if newError.Some? then (kss, true)
    else if newKeyspace == kss.lastKeyspace then (kss, true)
    else (kss.(lastKeyspace := newKeyspace, consistent := false), true)
  }

  /** A nil snapshot with no error, after a snapshot was seen, keeps the
      watch alive. */
  lemma NilSnapshotKeepsWatching(kss: KeyspaceState)
    requires kss.lastKeyspace.Some?
    ensures OnSrvKeyspace(kss, None, None).1
  {
  }

  // ---------------------------------------------------------------------------
  // Fixtures

  const TestKeyspace: string := "testks"

  function PrimaryShard(shard: string, serving: bool): ShardState
  {
    ShardState(Target("", TestKeyspace, shard, Primary), serving, 0, None)
  }

  function ReparentedShard(shard: string): ShardState
  {
    ShardState(Target("", TestKeyspace, shard, Primary), false, 1, Some(TabletAlias("cell", 100)))
  }

  function Inconsistent(shards: map<string, ShardState>): KeyspaceState
  {
    KeyspaceState(TestKeyspace, shards, None, false, false)
  }

  function WatcherOf(kss: KeyspaceState): KeyspaceEventWatcher
  {
    KeyspaceEventWatcher(map[TestKeyspace := kss])
  }

  function OneToTwo(): KeyspaceState
  {
    Inconsistent(map["-" := PrimaryShard("-", false), "-80" := PrimaryShard("-80", true), "80-" := PrimaryShard("80-", false)])
  }

  function TwoToFour(): KeyspaceState
  {
    Inconsistent(map[
      "-80" := PrimaryShard("-80", false), "80-" := PrimaryShard("80-", true),
      "-40" := PrimaryShard("-40", true), "40-80" := PrimaryShard("40-80", true),
      "80-c0" := PrimaryShard("80-c0", false), "c0-" := PrimaryShard("c0-", false)])
  }

  function UnshardedPrimaryDown(): KeyspaceState
  {
    Inconsistent(map["-" := ReparentedShard("-")])
  }

  function ShardedPrimaryDown(): KeyspaceState
  {
    Inconsistent(map["-80" := ReparentedShard("-80"), "80-" := PrimaryShard("80-", true)])
  }

  /** A fixture's shard name reads as the key range it is the name of. */
  lemma ParseNameOf(kr: KeyRange, name: string)
    requires KeyRangeString(kr) == name
    ensures ParseShardName(name) == Range(kr)
  {
    ShardNameRoundTrip(kr);
  }

  lemma HexOfFixtureBytes()
    ensures HexEncode([0x80]) == "80" && HexEncode([0x40]) == "40" && HexEncode([0xc0]) == "c0"
  {
    assert HexEncode([0x80][1..]) == "";
    assert HexEncode([0x40][1..]) == "";
    assert HexEncode([0xc0][1..]) == "";
  }

  lemma ParseWhole()
    ensures ParseShardName("-") == Range(KeyRange([], []))
  {
    HexOfFixtureBytes();
    ParseNameOf(KeyRange([], []), "-");
  }

  lemma ParseLow80()
    ensures ParseShardName("-80") == Range(KeyRange([], [0x80]))
  {
    HexOfFixtureBytes();
    ParseNameOf(KeyRange([], [0x80]), "-80");
  }

  lemma ParseHigh80()
    ensures ParseShardName("80-") == Range(KeyRange([0x80], []))
  {
    HexOfFixtureBytes();
    ParseNameOf(KeyRange([0x80], []), "80-");
  }

  lemma ParseLow40()
    ensures ParseShardName("-40") == Range(KeyRange([], [0x40]))
  {
    HexOfFixtureBytes();
    ParseNameOf(KeyRange([], [0x40]), "-40");
  }

  lemma ParseFrom40To80()
    ensures ParseShardName("40-80") == Range(KeyRange([0x40], [0x80]))
  {
    HexOfFixtureBytes();
    ParseNameOf(KeyRange([0x40], [0x80]), "40-80");
  }

  lemma ParseFrom80ToC0()
    ensures ParseShardName("80-c0") == Range(KeyRange([0x80], [0xc0]))
  {
    HexOfFixtureBytes();
    ParseNameOf(KeyRange([0x80], [0xc0]), "80-c0");
  }

  lemma ParseHighC0()
    ensures ParseShardName("c0-") == Range(KeyRange([0xc0], []))
  {
    HexOfFixtureBytes();
    ParseNameOf(KeyRange([0xc0], []), "c0-");
  }

  lemma ParseFixtureNames()
    ensures ParseShardName("-") == Range(KeyRange([], []))
    ensures ParseShardName("-80") == Range(KeyRange([], [0x80]))
    ensures ParseShardName("80-") == Range(KeyRange([0x80], []))
    ensures ParseShardName("-40") == Range(KeyRange([], [0x40]))
    ensures ParseShardName("40-80") == Range(KeyRange([0x40], [0x80]))
    ensures ParseShardName("80-c0") == Range(KeyRange([0x80], [0xc0]))
    ensures ParseShardName("c0-") == Range(KeyRange([0xc0], []))
  {
    ParseWhole();
    ParseLow80();
    ParseHigh80();
    ParseLow40();
    ParseFrom40To80();
    ParseFrom80ToC0();
    ParseHighC0();
  }

  /** A serving shard of another, overlapping key range shows resharding. */
  lemma ReshardingWitness(kew: KeyspaceEventWatcher, target: Target, ckr: KeyRange, other: string, skr: KeyRange)
    requires target.tabletType == Primary && target.keyspace in kew.keyspaces
    requires !kew.keyspaces[target.keyspace].consistent
    requires ParseShardName(target.shard) == Range(ckr)
    requires other in kew.keyspaces[target.keyspace].shards
    requires ParseShardName(kew.keyspaces[target.keyspace].shards[other].target.shard) == Range(skr)
    requires skr != ckr && KeyRangesIntersect(ckr, skr) && kew.keyspaces[target.keyspace].shards[other].serving
    ensures TargetIsBeingResharded(kew, target)
  {
    assert ParseShardName(kew.keyspaces[target.keyspace].shards[other].target.shard) == Range(skr);
  }

  /** Resharding is reported only when all four conditions hold: an
      inconsistent keyspace, a primary target with a range shard name, and
      a serving shard of another range overlapping it. */
  lemma ReshardingExplained(kew: KeyspaceEventWatcher, target: Target)
    requires TargetIsBeingResharded(kew, target)
    ensures target.tabletType == Primary && target.keyspace in kew.keyspaces
    ensures !kew.keyspaces[target.keyspace].consistent
    ensures ParseShardName(target.shard).Range?
    ensures var shards := kew.keyspaces[target.keyspace].shards;
            var ckr := ParseShardName(target.shard).keyRange;
            exists other :: other in shards && shards[other].serving
                            && ParseShardName(shards[other].target.shard).Range?
                            && ParseShardName(shards[other].target.shard).keyRange != ckr
                            && KeyRangesIntersect(ckr, ParseShardName(shards[other].target.shard).keyRange)
  {
    var shards := kew.keyspaces[target.keyspace].shards;
    var ckr := ParseShardName(target.shard).keyRange;
    var other :| other in shards && OverlapsAndServes(shards[other], ckr);
  }

  /** One shard split in two, with "-80" already serving: resharding, not a
      primary failure. */
  lemma OneToTwoIsResharding()
    ensures TargetIsBeingResharded(WatcherOf(OneToTwo()), OneToTwo().shards["-"].target)
    ensures !PrimaryIsNotServing(WatcherOf(OneToTwo()), OneToTwo().shards["-"].target).1
  {
    var kss := OneToTwo();
    ParseWhole();
    ParseLow80();
    ReshardingWitness(WatcherOf(kss), kss.shards["-"].target, KeyRange([], []), "-80", KeyRange([], [0x80]));
  }

  /** Two shards split in four, with "-40" and "40-80" serving: resharding,
      not a primary failure. */
  lemma TwoToFourIsResharding()
    ensures TargetIsBeingResharded(WatcherOf(TwoToFour()), TwoToFour().shards["-80"].target)
    ensures !PrimaryIsNotServing(WatcherOf(TwoToFour()), TwoToFour().shards["-80"].target).1
  {
    var kss := TwoToFour();
    ParseLow80();
    ParseLow40();
    ReshardingWitness(WatcherOf(kss), kss.shards["-80"].target, KeyRange([], [0x80]), "-40", KeyRange([], [0x40]));
  }

  /** The only shard's primary is down: a primary failure, not resharding. */
  lemma UnshardedIsPrimaryDown()
    ensures !TargetIsBeingResharded(WatcherOf(UnshardedPrimaryDown()), UnshardedPrimaryDown().shards["-"].target)
    ensures PrimaryIsNotServing(WatcherOf(UnshardedPrimaryDown()), UnshardedPrimaryDown().shards["-"].target)
              == (Some(TabletAlias("cell", 100)), true)
  {
    var kss := UnshardedPrimaryDown();
    ParseWhole();
    assert !OverlapsAndServes(kss.shards["-"], KeyRange([], []));
    assert kss.shards.Keys == {"-"};
  }

  /** The primary of "-80" is down while the disjoint "80-" serves: a primary
      failure, not resharding. */
  lemma ShardedIsPrimaryDown()
    ensures !TargetIsBeingResharded(WatcherOf(ShardedPrimaryDown()), ShardedPrimaryDown().shards["-80"].target)
    ensures PrimaryIsNotServing(WatcherOf(ShardedPrimaryDown()), ShardedPrimaryDown().shards["-80"].target)
              == (Some(TabletAlias("cell", 100)), true)
  {
    var kss := ShardedPrimaryDown();
    ParseLow80();
    ParseHigh80();
    assert !OverlapsAndServes(kss.shards["-80"], KeyRange([], [0x80]));
    assert !BytesLess([0x80], [0x80]) by { assert [0x80 as byte][1..] == []; }
    assert !OverlapsAndServes(kss.shards["80-"], KeyRange([], [0x80]));
    assert kss.shards.Keys == {"-80", "80-"};
  }
}
