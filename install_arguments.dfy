/** The argument vector `_install_arguments` (src/charm.py) passes to
    `magma-access-gateway.install`.  The decoder `json.loads` is the parameter `loads`. */
module InstallArguments {
  import opened Wrappers
  import opened Json
  import opened CharmConfig

  const SKIP_NETWORKING_FLAG: string := "--" + SKIP_NETWORKING
  const DNS_FLAG: string := "--" + DNS

  /** The flag under which an option is passed on. */
  function Flag(k: Key): string
  {
    "--" + KeyName(k)
  }

  /** A common prefix cancels. */
  lemma PrefixCancels(p: string, x: string, y: string)
    ensures p + x == p + y ==> x == y
  {
    if p + x == p + y {
      assert x == (p + x)[|p|..];
      assert y == (p + y)[|p|..];
    }
  }

  /** Distinct options get distinct flags, neither of which is one of the two fixed
      flags. */
  lemma FlagInjective(k: Key, k': Key)
    ensures Flag(k) == Flag(k') ==> k == k'
    ensures Flag(k) != SKIP_NETWORKING_FLAG && Flag(k) != DNS_FLAG
  {
    KeyNamesDistinct(k, k');
    PrefixCancels("--", KeyName(k), KeyName(k'));
    PrefixCancels("--", KeyName(k), SKIP_NETWORKING);
    PrefixCancels("--", KeyName(k), DNS);
  }

  /** The strings of an array all of whose elements are strings. */
  function StringItems(items: seq<Json>): (r: Option<seq<string>>)
    ensures r.Some? <==> forall i :: 0 <= i < |items| ==> items[i].JString?
    ensures r.Some? ==> |r.value| == |items|
                        && forall i :: 0 <= i < |items| ==> r.value[i] == items[i].s
  {
    if items == [] then Some([])
    else if !items[0].JString? then None
    else match StringItems(items[1..])
      case None => None
      case Some(rest) => Some([items[0].s] + rest)
  }

  /** What `arguments.extend(v)` appends for a decoded value v, if the result can still
      be an argument vector: a list contributes its elements, a string its characters
      and an object its keys.  Any other value is not iterable, and a list holding a
      non-string cannot be passed to the installer. */
  function Extension(v: Json): (r: Option<seq<string>>)
    ensures v.JArray? ==> r == StringItems(v.items)
    ensures v.JString? ==> r.Some? && |r.value| == |v.s|
                           && forall i :: 0 <= i < |v.s| ==> r.value[i] == [v.s[i]]
    ensures v.JObject? ==> r.Some? && |r.value| == |v.members|
                           && forall i :: 0 <= i < |v.members| ==> r.value[i] == v.members[i].0
    ensures !v.JArray? && !v.JString? && !v.JObject? ==> r.None?
  {
    match v
    case JArray(items) => StringItems(items)
    case JString(s) => Some(seq(|s|, i requires 0 <= i < |s| => [s[i]]))
    case JObject(members) => Some(seq(|members|, i requires 0 <= i < |members| => members[i].0))
    case _ => None
  }

  /** The flag and value of each of the given present options, in order. */
  function FlagPairs(c: Config, keys: seq<Key>): (pairs: seq<string>)
    requires forall i :: 0 <= i < |keys| ==> Get(c, keys[i]).Some?
    ensures |pairs| == 2 * |keys|
  {
    if keys == [] then []
    else
      var k := keys[|keys| - 1];
      FlagPairs(c, keys[..|keys| - 1]) + [Flag(k), Get(c, k).value]
  }

  /** The argument vector, or `None` where the builder raises or produces a list that is
      not an argument vector. */
  function Arguments(c: Config, loads: string -> Option<Json>): Option<seq<string>>
    requires WellFormed(c)
  {
    if c.skipNetworking then Some([SKIP_NETWORKING_FLAG])
    else
      match loads(c.dns)
      case None => None
      case Some(v) =>
        match Extension(v)
        case None => None
        case Some(servers) => Some([DNS_FLAG] + servers + FlagPairs(c, c.order))
  }

  /** Every key in the order of a well-formed configuration is present. */
  lemma OrderPresent(c: Config)
    requires WellFormed(c)
    ensures forall j :: 0 <= j < |c.order| ==> Get(c, c.order[j]).Some?
  {
  }

  /** The pairs of a prefix one key longer. */
  lemma {:induction false} FlagPairsExtend(c: Config, keys: seq<Key>, i: nat)
    requires i < |keys|
    requires forall j :: 0 <= j < |keys| ==> Get(c, keys[j]).Some?
    ensures FlagPairs(c, keys[..i + 1]) == FlagPairs(c, keys[..i]) + [Flag(keys[i]), Get(c, keys[i]).value]
  {
    assert keys[..i + 1][..i] == keys[..i];
  }

  /** The loop of `_install_arguments` that appends one flag and value per remaining
      option, in the dictionary's order. */
  method AppendFlagPairs(c: Config, keys: seq<Key>, prefix: seq<string>) returns (args: seq<string>)
    requires forall j :: 0 <= j < |keys| ==> Get(c, keys[j]).Some?
    ensures args == prefix + FlagPairs(c, keys)
  {
    args := prefix;
    var i := 0;
    while i < |keys|
      invariant 0 <= i <= |keys|
      invariant args == prefix + FlagPairs(c, keys[..i])
    {
      var k := keys[i];
      FlagPairsExtend(c, keys, i);
      args := args + [Flag(k), Get(c, k).value];
      i := i + 1;
    }
    assert keys[..|keys|] == keys;
  }

  /** `_install_arguments`: pops the two fixed options, then appends the DNS servers and
      one flag and value per remaining option. */
  method BuildInstallArguments(c: Config, loads: string -> Option<Json>)
    returns (arguments: Option<seq<string>>)
    requires WellFormed(c)
    ensures arguments == Arguments(c, loads)
  {
    if c.skipNetworking {
      return Some([SKIP_NETWORKING_FLAG]);
    }
    var decoded := loads(c.dns);
    if decoded.None? {
      return None;
    }
    var servers := Extension(decoded.value);
    if servers.None? {
      return None;
    }
    OrderPresent(c);
    var args := AppendFlagPairs(c, c.order, [DNS_FLAG] + servers.value);
    return Some(args);
  }

  /** The layout of the option part: the flag of the i-th key at position 2i and its
      value right after it. */
  lemma {:induction false} FlagPairsLayout(c: Config, keys: seq<Key>)
    requires forall i :: 0 <= i < |keys| ==> Get(c, keys[i]).Some?
    ensures |FlagPairs(c, keys)| == 2 * |keys|
    ensures forall i :: 0 <= i < |keys| ==>
      FlagPairs(c, keys)[2 * i] == Flag(keys[i]) && FlagPairs(c, keys)[2 * i + 1] == Get(c, keys[i]).value
  {
    if keys != [] {
      var init := keys[..|keys| - 1];
      FlagPairsLayout(c, init);
      var p := FlagPairs(c, keys);
      assert p == FlagPairs(c, init) + [Flag(keys[|keys| - 1]), Get(c, keys[|keys| - 1]).value];
      forall i | 0 <= i < |keys|
        ensures p[2 * i] == Flag(keys[i]) && p[2 * i + 1] == Get(c, keys[i]).value
      {
        if i < |keys| - 1 {
          assert keys[i] == init[i];
        }
      }
    }
  }

  /** With networking skipped the installer is told only that. */
  lemma SkipNetworkingArguments(c: Config, loads: string -> Option<Json>)
    requires WellFormed(c) && c.skipNetworking
    ensures Arguments(c, loads) == Some([SKIP_NETWORKING_FLAG])
  {
  }

  /** With networking configured and a DNS list of strings: "--dns", the servers in
      list order, then the option part. */
  lemma ConfiguredArguments(c: Config, loads: string -> Option<Json>, servers: seq<Json>)
    requires WellFormed(c) && !c.skipNetworking
    requires loads(c.dns) == Some(JArray(servers))
    requires forall i :: 0 <= i < |servers| ==> servers[i].JString?
    ensures Arguments(c, loads).Some?
    ensures var a := Arguments(c, loads).value;
      && |a| == 1 + |servers| + 2 * |c.order|
      && a[0] == DNS_FLAG
      && (forall i :: 0 <= i < |servers| ==> a[1 + i] == servers[i].s)
      && a[1 + |servers|..] == FlagPairs(c, c.order)
  {
    var d := StringItems(servers).value;
    var a := [DNS_FLAG] + d + FlagPairs(c, c.order);
    assert Arguments(c, loads) == Some(a);
    assert a[1 + |servers|..] == FlagPairs(c, c.order);
  }

  /** A decoded DNS list holding a value that is not a string gives no argument vector
      here, where Python's `extend` appends that value and leaves the failure to the
      installer call. */
  lemma NonStringServerNoVector(c: Config, loads: string -> Option<Json>, servers: seq<Json>, j: nat)
    requires WellFormed(c) && !c.skipNetworking
    requires loads(c.dns) == Some(JArray(servers))
    requires j < |servers| && !servers[j].JString?
    ensures Arguments(c, loads).None?
  {
  }

  /** The option part: a flag and its value for each present option in configuration
      order.  Neither "--dns" nor "--skip-networking" recurs as an option flag, and an
      absent option has no flag. */
  lemma OptionFlags(c: Config)
    requires WellFormed(c)
    ensures var p := FlagPairs(c, c.order);
      forall i :: 0 <= i < |c.order| ==>
        && p[2 * i] == Flag(c.order[i])
        && p[2 * i + 1] == Get(c, c.order[i]).value
        && p[2 * i] != DNS_FLAG
        && p[2 * i] != SKIP_NETWORKING_FLAG
        && forall k :: Get(c, k).None? ==> p[2 * i] != Flag(k)
  {
    var p := FlagPairs(c, c.order);
    FlagPairsLayout(c, c.order);
    forall i | 0 <= i < |c.order|
      ensures p[2 * i] != DNS_FLAG && p[2 * i] != SKIP_NETWORKING_FLAG
      ensures forall k :: Get(c, k).None? ==> p[2 * i] != Flag(k)
    {
      FlagInjective(c.order[i], c.order[i]);
      forall k | Get(c, k).None?
        ensures p[2 * i] != Flag(k)
      {
        FlagInjective(c.order[i], k);
      }
    }
  }

  /** Each present option is passed exactly once, with its value, even an empty one. */
  lemma PresentOptionPassedOnce(c: Config, k: Key)
    requires WellFormed(c) && Get(c, k).Some?
    ensures exists i :: 0 <= i < |c.order| && c.order[i] == k
                        && FlagPairs(c, c.order)[2 * i] == Flag(k)
                        && FlagPairs(c, c.order)[2 * i + 1] == Get(c, k).value
    ensures forall i, j :: 0 <= i < j < |c.order| ==>
              FlagPairs(c, c.order)[2 * i] == Flag(k) ==> FlagPairs(c, c.order)[2 * j] != Flag(k)
  {
    FlagPairsLayout(c, c.order);
    var i :| 0 <= i < |c.order| && c.order[i] == k;
    forall i, j | 0 <= i < j < |c.order|
      ensures FlagPairs(c, c.order)[2 * i] == Flag(k) ==> FlagPairs(c, c.order)[2 * j] != Flag(k)
    {
      FlagInjective(c.order[i], k);
      FlagInjective(c.order[j], k);
    }
  }
}
