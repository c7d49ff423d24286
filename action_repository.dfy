// The vtctld action repository: named actions on keyspaces, shards and
// tablets, registered at start-up and applied on request, each answering
// with an action result.
module Vtctld {
  import opened TopoData
  import opened Strs

  /** What running an action gives: its output for the user, or an error. */
  datatype ActionOutcome = Output(text: string) | Failed(errorText: string)

  /** The result shown to the user: the action, what it was applied to, its
      output or error text, and whether it failed. */
  datatype ActionResult = ActionResult(name: string, parameters: string, output: string, isError: bool)

  /** A tablet action with the role a caller needs ("" for none). */
  datatype TabletActionRecord = TabletActionRecord(role: string, run: TabletAlias -> ActionOutcome)

  const UnknownKeyspaceAction: string := "Unknown keyspace action"
  const UnknownShardAction: string := "Unknown shard action"
  const UnknownTabletAction: string := "Unknown tablet action"
  const AccessDenied: string := "Access denied"

  /** Marks a result as failed with the given text. */
  function WithError(r: ActionResult, text: string): (e: ActionResult)
    ensures e.isError && e.output == text
    ensures e.name == r.name && e.parameters == r.parameters
  {
    r.(isError := true, output := text)
  }

  /** The result of an action that ran: failed with the error text, or
      successful with its output. */
  function Finish(r: ActionResult, outcome: ActionOutcome): (e: ActionResult)
    requires !r.isError && r.output == ""
    ensures e.name == r.name && e.parameters == r.parameters
    ensures e.isError <==> outcome.Failed?
    ensures outcome.Failed? ==> e.output == outcome.errorText
    ensures outcome.Output? ==> e.output == outcome.text
  {
    match outcome
    case Failed(text) => WithError(r, text)
    case Output(text) => r.(output := text)
  }

  /** A shard name with a '-' names a key range and is lower-cased; any
      other name is kept. */
  function NormalizeShard(shard: string): (s: string)
    ensures '-' in shard ==> s == ToLower(shard)
    ensures '-' !in shard ==> s == shard
  {
    if '-' in shard then ToLower(shard) else shard
  }

  /** Normalising keeps the length and the dashes, removes every upper-case
      ASCII letter from a range name, and so is idempotent. */
  lemma NormalizeShardIdempotent(shard: string)
    ensures |NormalizeShard(shard)| == |shard|
    ensures forall i :: 0 <= i < |shard| ==> (NormalizeShard(shard)[i] == '-' <==> shard[i] == '-')
    ensures '-' in shard ==> forall i :: 0 <= i < |shard| ==> !('A' <= NormalizeShard(shard)[i] <= 'Z')
    ensures NormalizeShard(NormalizeShard(shard)) == NormalizeShard(shard)
  {
    if '-' in shard {
      var i :| 0 <= i < |shard| && shard[i] == '-';
      assert ToLower(shard)[i] == '-';
      ToLowerIdempotent(shard);
    }
  }

  /** The decimal digits of `n`, without leading zeros. */
  function Decimal(n: nat): (s: string)
    ensures |s| >= 1
    ensures forall i :: 0 <= i < |s| ==> '0' <= s[i] <= '9'
    ensures n > 0 ==> s[0] != '0'
  {
    if n < 10 then [(('0' as int) + n) as char] else Decimal(n / 10) + [(('0' as int) + n % 10) as char]
  }

  predicate AllDigits(s: string)
  {
    forall i :: 0 <= i < |s| ==> '0' <= s[i] <= '9'
  }

  function Pow10(k: nat): nat
  {
    if k == 0 then 1 else 10 * Pow10(k - 1)
  }

  /** A number below 10^k has at most k decimal digits. */
  lemma {:induction false} DecimalLength(n: nat, k: nat)
    requires 1 <= k && n < Pow10(k)
    ensures |Decimal(n)| <= k
  {
    if n >= 10 {
      assert n / 10 < Pow10(k - 1);
      DecimalLength(n / 10, k - 1);
    }
  }

  /** Every 32-bit uid has at most ten decimal digits. */
  lemma UidWidth(uid: nat)
    ensures uid < 10000000000 ==> |Decimal(uid)| <= 10
  {
    assert Pow10(5) == 100000;
    assert Pow10(10) == 10000000000;
    if uid < 10000000000 {
      DecimalLength(uid, 10);
    }
  }

  /** The value of a string of decimal digits. */
  function DigitsValue(s: string): nat
    requires AllDigits(s)
  {
    if s == [] then 0 else 10 * DigitsValue(s[..|s| - 1]) + (s[|s| - 1] as int - '0' as int)
  }

  /** The decimal digits read back give the number. */
  lemma {:induction false} DecimalValue(n: nat)
    ensures DigitsValue(Decimal(n)) == n
  {
    if n >= 10 {
      DecimalValue(n / 10);
      var s := Decimal(n);
      assert s[..|s| - 1] == Decimal(n / 10);
    }
  }

  /** `s` padded with leading zeros to at least `width` characters. */
  function ZeroPad(s: string, width: nat): (r: string)
    ensures |r| == if |s| < width then width else |s|
    ensures r[|r| - |s|..] == s
    ensures forall i :: 0 <= i < |r| - |s| ==> r[i] == '0'
  {
    if |s| >= width then s else seq(width - |s|, _ => '0') + s
  }

  /** The printed form of a tablet alias: the cell, a dash and the uid as
      ten zero-padded decimal digits. */
  function AliasString(alias: TabletAlias): (s: string)
    ensures |s| >= |alias.cell| + 11
    ensures s[..|alias.cell| + 1] == alias.cell + "-"
    ensures forall i :: |alias.cell| + 1 <= i < |s| ==> '0' <= s[i] <= '9'
    ensures DigitsValue(s[|alias.cell| + 1..]) == alias.uid
    ensures alias.uid < 10000000000 ==> |s| == |alias.cell| + 11
  {
    var padded := ZeroPad(Decimal(alias.uid), 10);
    PaddedWidth(alias.uid);
    PaddedUid(alias.uid);
    DigitsAfter(alias.cell + "-", padded);
    alias.cell + "-" + padded
  }

  /** The alias of uid 5 in cell "c" prints as exactly ten digits. */
  lemma AliasOfUidFive()
    ensures AliasString(TabletAlias("c", 5)) == "c-0000000005"
  {
    assert Decimal(5) == "5";
    assert ZeroPad("5", 10) == "0000000005";
  }

  /** A prefix followed by digits: the digits are what follows the prefix. */
  lemma DigitsAfter(prefix: string, digits: string)
    requires AllDigits(digits)
    ensures (prefix + digits)[..|prefix|] == prefix && (prefix + digits)[|prefix|..] == digits
    ensures forall i :: |prefix| <= i < |prefix + digits| ==> '0' <= (prefix + digits)[i] <= '9'
  {
    assert forall i :: |prefix| <= i < |prefix + digits| ==> (prefix + digits)[i] == digits[i - |prefix|];
  }

  /** A uid is padded to at least ten digits, and to exactly ten when it
      fits in 32 bits. */
  lemma PaddedWidth(uid: nat)
    ensures |ZeroPad(Decimal(uid), 10)| >= 10
    ensures uid < 10000000000 ==> |ZeroPad(Decimal(uid), 10)| == 10
  {
    UidWidth(uid);
  }

  /** The padded digits of a uid are digits and read back as the uid. */
  lemma PaddedUid(uid: nat)
    ensures AllDigits(ZeroPad(Decimal(uid), 10))
    ensures DigitsValue(ZeroPad(Decimal(uid), 10)) == uid
  {
    var d := Decimal(uid);
    var padded := ZeroPad(d, 10);
    DecimalValue(uid);
    var z := padded[..|padded| - |d|];
    SplitAt(padded, |padded| - |d|);
    PaddingKeepsValue(z, d);
  }

  lemma SplitAt(s: string, m: nat)
    requires m <= |s|
    ensures s == s[..m] + s[m..]
    ensures forall i :: 0 <= i < m ==> s[..m][i] == s[i]
  {
  }

  /** Leading zeros do not change the value of a string of digits. */
  lemma {:induction false} PaddingKeepsValue(z: string, d: string)
    requires forall i :: 0 <= i < |z| ==> z[i] == '0'
    requires AllDigits(d)
    ensures AllDigits(z + d)
    ensures DigitsValue(z + d) == DigitsValue(d)
  {
    if d == [] {
      assert z + d == z;
      ZerosValue(z);
    } else {
      var init := d[..|d| - 1];
      PaddingKeepsValue(z, init);
      assert (z + d)[..|z + d| - 1] == z + init;
    }
  }

  lemma {:induction false} ZerosValue(z: string)
    requires forall i :: 0 <= i < |z| ==> z[i] == '0'
    ensures AllDigits(z)
    ensures DigitsValue(z) == 0
  {
    if z != [] {
      ZerosValue(z[..|z| - 1]);
    }
  }

  class ActionRepository {
    var keyspaceActions: map<string, string -> ActionOutcome>
    var shardActions: map<string, (string, string) -> ActionOutcome>
    var tabletActions: map<string, TabletActionRecord>

    /** A repository with no actions. */
    constructor ()
      ensures keyspaceActions == map[] && shardActions == map[] && tabletActions == map[]
    {
      keyspaceActions := map[];
      shardActions := map[];
      tabletActions := map[];
    }

    /** Registers a keyspace action, replacing any action of that name. */
    method RegisterKeyspaceAction(name: string, run: string -> ActionOutcome)
      modifies this
      ensures keyspaceActions == old(keyspaceActions)[name := run]
      ensures shardActions == old(shardActions) && tabletActions == old(tabletActions)
    {
      keyspaceActions := keyspaceActions[name := run];
    }

    /** Registers a shard action, replacing any action of that name. */
    method RegisterShardAction(name: string, run: (string, string) -> ActionOutcome)
      modifies this
      ensures shardActions == old(shardActions)[name := run]
      ensures keyspaceActions == old(keyspaceActions) && tabletActions == old(tabletActions)
    {
      shardActions := shardActions[name := run];
    }

    /** Registers a tablet action with its required role, replacing any
        action of that name. */
    method RegisterTabletAction(name: string, role: string, run: TabletAlias -> ActionOutcome)
      modifies this
      ensures tabletActions == old(tabletActions)[name := TabletActionRecord(role, run)]
      ensures keyspaceActions == old(keyspaceActions) && shardActions == old(shardActions)
    {
      tabletActions := tabletActions[name := TabletActionRecord(role, run)];
    }

    /** Applies a keyspace action; `ran` says whether the action itself was
        called. An unknown action fails without running anything. */
    method ApplyKeyspaceAction(actionName: string, keyspace: string) returns (result: ActionResult, ran: bool)
      ensures result.name == actionName && result.parameters == keyspace
      ensures actionName !in keyspaceActions ==>
                !ran && result.isError && result.output == UnknownKeyspaceAction
      ensures actionName in keyspaceActions ==>
                var outcome := keyspaceActions[actionName](keyspace);
                && ran
                && (result.isError <==> outcome.Failed?)
                && result.output == (if outcome.Failed? then outcome.errorText else outcome.text)
    {
      result := ActionResult(actionName, keyspace, "", false);
      if actionName !in keyspaceActions {
        return WithError(result, UnknownKeyspaceAction), false;
      }
      var action := keyspaceActions[actionName];
      var outcome := action(keyspace);
      return Finish(result, outcome), true;
    }

    /** Applies a shard action to the normalised shard name, shown as
        "keyspace/shard". An unknown action fails without running
        anything. */
    method ApplyShardAction(actionName: string, keyspace: string, shard: string) returns (result: ActionResult, ran: bool)
      ensures result.name == actionName && result.parameters == keyspace + "/" + NormalizeShard(shard)
      ensures actionName !in shardActions ==>
                !ran && result.isError && result.output == UnknownShardAction
      ensures actionName in shardActions ==>
                var outcome := shardActions[actionName](keyspace, NormalizeShard(shard));
                && ran
                && (result.isError <==> outcome.Failed?)
                && result.output == (if outcome.Failed? then outcome.errorText else outcome.text)
    {
      var name := shard;
      if '-' in name {
        name := ToLower(name);
      }
      result := ActionResult(actionName, keyspace + "/" + name, "", false);
      if actionName !in shardActions {
        return WithError(result, UnknownShardAction), false;
      }
      var action := shardActions[actionName];
      var outcome := action(keyspace, name);
      return Finish(result, outcome), true;
    }

    /** Applies a tablet action. `checkAccess(role)` is the access check of
        the request. An unknown action, or one whose role the caller lacks,
        fails without running anything. */
    method ApplyTabletAction(actionName: string, alias: TabletAlias, checkAccess: string -> bool)
      returns (result: ActionResult, ran: bool)
      ensures result.name == actionName && result.parameters == AliasString(alias)
      ensures actionName !in tabletActions ==>
                !ran && result.isError && result.output == UnknownTabletAction
      ensures actionName in tabletActions ==>
                var record := tabletActions[actionName];
                && (ran <==> record.role == "" || checkAccess(record.role))
                && (!ran ==> result.isError && result.output == AccessDenied)
                && (ran ==> var outcome := record.run(alias);
                            && (result.isError <==> outcome.Failed?)
                            && result.output == (if outcome.Failed? then outcome.errorText else outcome.text))
    {
      result := ActionResult(actionName, AliasString(alias), "", false);
      if actionName !in tabletActions {
        return WithError(result, UnknownTabletAction), false;
      }
      var action := tabletActions[actionName];
      if action.role != "" {
        if !checkAccess(action.role) {
          return WithError(result, AccessDenied), false;
        }
      }
      var outcome := action.run(alias);
      return Finish(result, outcome), true;
    }
  }
}
