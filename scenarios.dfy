/** Concrete configurations and script outputs from the charm's unit tests
    (tests/unit/test_charm.py), checked against the model.  A multi-line output is
    written as its lines joined by newlines. */
module Scenarios {
  import opened Wrappers
  import opened Text
  import opened GatewaySecrets
  import opened Ipaddress
  import opened AddressValidators
  import opened Json
  import opened Dns
  import opened CharmConfig
  import opened Validation
  import opened InstallArguments

  /** Two blocks of lines, each followed by an empty line, filter to the blocks. */
  lemma {:induction false} BlankSeparated(a: seq<string>, b: seq<string>)
    requires forall i :: 0 <= i < |a| ==> a[i] != ""
    requires forall i :: 0 <= i < |b| ==> b[i] != ""
    ensures NonEmpty(a + [""] + b + [""]) == a + b
  {
    var blank: seq<string> := [""];
    assert NonEmpty(blank) == [] by {
      NonEmptyStep(blank, 0);
      assert blank[1..] == [];
    }
    FiltersKeepAll(a);
    FiltersKeepAll(b);
    NonEmptyConcat(a, blank);
    assert NonEmpty(a + blank) == a;
    NonEmptyConcat(a + blank, b);
    assert NonEmpty(a + blank + b) == a + b;
    NonEmptyConcat(a + blank + b, blank);
  }

  /** An underline after a run of other lines is dropped. */
  lemma {:induction false} RuleDropped(x: seq<string>, r: string, rest: seq<string>)
    requires IsRule(r)
    requires forall i :: 0 <= i < |x| ==> !IsRule(x[i])
    ensures DropRules(x + [r] + rest) == x + DropRules(rest)
  {
    var rule := [r];
    assert DropRules(rule) == [] by {
      DropRulesStep(rule, 0);
      assert rule[1..] == [];
    }
    FiltersKeepAll(x);
    DropRulesConcat(x, rule);
    DropRulesConcat(x + rule, rest);
  }

  /** Underlines between three runs of other lines are dropped. */
  lemma {:induction false} RuleSeparated(x: seq<string>, r: string, y: seq<string>, r': string, z: seq<string>)
    requires IsRule(r) && IsRule(r')
    requires forall i :: 0 <= i < |x| ==> !IsRule(x[i])
    requires forall i :: 0 <= i < |y| ==> !IsRule(y[i])
    requires forall i :: 0 <= i < |z| ==> !IsRule(z[i])
    ensures DropRules(x + [r] + y + [r'] + z) == x + y + z
  {
    RuleDropped(y, r', z);
    FiltersKeepAll(z);
    RuleDropped(x, r, y + [r'] + z);
    assert x + [r] + y + [r'] + z == x + [r] + (y + [r'] + z);
  }

  lemma GatewayInfoNonEmpty(parts: seq<string>)
    requires parts == ["Hardware ID", "------------", "1234-abc-5678", "", "Challenge key", "-----------", "whatever", ""]
    ensures NonEmpty(parts) == ["Hardware ID", "------------", "1234-abc-5678", "Challenge key", "-----------", "whatever"]
  {
    var a, b := parts[..3], parts[4..7];
    assert parts == a + [""] + b + [""];
    BlankSeparated(a, b);
  }

  lemma GatewayInfoNoRules(kept: seq<string>)
    requires kept == ["Hardware ID", "------------", "1234-abc-5678", "Challenge key", "-----------", "whatever"]
    ensures DropRules(kept) == ["Hardware ID", "1234-abc-5678", "Challenge key", "whatever"]
  {
    var x, y, z := kept[..1], kept[2..4], kept[5..];
    assert kept == x + [kept[1]] + y + [kept[4]] + z;
    RuleSeparated(x, kept[1], y, kept[4], z);
  }

  /** Filtering the test output leaves the two headings, each followed by its value. */
  lemma GatewayInfoLines(parts: seq<string>)
    requires parts == ["Hardware ID", "------------", "1234-abc-5678", "", "Challenge key", "-----------", "whatever", ""]
    ensures InfoLines(Join(parts, '\n')) == ["Hardware ID", "1234-abc-5678", "Challenge key", "whatever"]
  {
    SplitJoin(parts, '\n');
    GatewayInfoNonEmpty(parts);
    GatewayInfoNoRules(NonEmpty(parts));
  }

  /** Both secrets are found, and the action returns them under "hardware-id" and
      "challange-key". */
  lemma GatewayInfoSecrets(parts: seq<string>)
    requires parts == ["Hardware ID", "------------", "1234-abc-5678", "", "Challenge key", "-----------", "whatever", ""]
    ensures Secrets(Join(parts, '\n')) == Ok(("1234-abc-5678", "whatever"))
    ensures SecretsAction(true, Some(Join(parts, '\n')))
            == Ok(map["hardware-id" := "1234-abc-5678", "challange-key" := "whatever"])
  {
    GatewayInfoLines(parts);
    var lines := ["Hardware ID", "1234-abc-5678", "Challenge key", "whatever"];
    assert IndexOf(lines, HARDWARE_ID_LABEL) == Some(0);
    assert IndexOf(lines[1..][1..], CHALLENGE_KEY_LABEL) == Some(0);
    assert IndexOf(lines, CHALLENGE_KEY_LABEL) == Some(2);
  }

  /** The script printed nothing: the Hardware ID heading is missing and the action
      fails. */
  lemma EmptyGatewayInfo()
    ensures Secrets("") == Err(HeadingMissing(HARDWARE_ID_LABEL))
    ensures SecretsAction(true, Some("")) == Err(SECRETS_FAILED)
  {
    assert Split("", '\n') == [""];
    NonEmptyStep([""], 0);
    assert NonEmpty([""]) == [];
  }

  lemma NoValuesNonEmpty(parts: seq<string>)
    requires parts == ["Hardware ID", "------------", "", "Challenge key", "-----------", ""]
    ensures NonEmpty(parts) == ["Hardware ID", "------------", "Challenge key", "-----------"]
  {
    var a, b := parts[..2], parts[3..5];
    assert parts == a + [""] + b + [""];
    BlankSeparated(a, b);
  }

  lemma NoValuesNoRules(kept: seq<string>)
    requires kept == ["Hardware ID", "------------", "Challenge key", "-----------"]
    ensures DropRules(kept) == ["Hardware ID", "Challenge key"]
  {
    var x, y, z := kept[..1], kept[2..3], kept[4..];
    assert kept == x + [kept[1]] + y + [kept[3]] + z;
    RuleSeparated(x, kept[1], y, kept[3], z);
  }

  /** The headings are printed without values: the Hardware ID is read as the line
      "Challenge key", and the Challenge key heading ends the list, so the action
      fails. */
  lemma GatewayInfoWithoutValues(parts: seq<string>)
    requires parts == ["Hardware ID", "------------", "", "Challenge key", "-----------", ""]
    ensures ValueAfter(InfoLines(Join(parts, '\n')), HARDWARE_ID_LABEL) == Ok(CHALLENGE_KEY_LABEL)
    ensures Secrets(Join(parts, '\n')) == Err(NothingAfterHeading(CHALLENGE_KEY_LABEL))
    ensures SecretsAction(true, Some(Join(parts, '\n'))) == Err(SECRETS_FAILED)
  {
    SplitJoin(parts, '\n');
    NoValuesNonEmpty(parts);
    NoValuesNoRules(NonEmpty(parts));
    var lines := ["Hardware ID", "Challenge key"];
    assert IndexOf(lines, HARDWARE_ID_LABEL) == Some(0);
    assert IndexOf(lines[1..], CHALLENGE_KEY_LABEL) == Some(0);
    assert IndexOf(lines, CHALLENGE_KEY_LABEL) == Some(1);
  }

  /** Magma is not running: the action fails whatever the script would print. */
  lemma SecretsNeedMagma(output: Option<string>)
    ensures SecretsAction(false, output) == Err("Magma is not running! Please start Magma and try again.")
  {
  }

  // ---------------------------------------------------------------- addresses

  /** The texts of the IPv4 values the tests use, as the formatting functions write
      them. */
  lemma Ipv4AddressText()
    ensures FormatIpv4([10, 0, 0, 2]) + "/" + DecimalString(24) == "10.0.0.2/24"
    ensures FormatIpv4([10, 0, 0, 2]) == "10.0.0.2"
  {
    assert DecimalString(10) == "10" && DecimalString(0) == "0" && DecimalString(2) == "2";
    assert DecimalString(24) == "24";
    assert FormatIpv4([10, 0, 0, 2]) == Join(["10", "0", "0", "2"], '.');
  }

  lemma Ipv4GatewayText()
    ensures FormatIpv4([10, 0, 0, 1]) == "10.0.0.1"
  {
    assert DecimalString(10) == "10" && DecimalString(0) == "0" && DecimalString(1) == "1";
    assert FormatIpv4([10, 0, 0, 1]) == Join(["10", "0", "0", "1"], '.');
  }

  lemma Ipv4S1AddressText()
    ensures FormatIpv4([10, 1, 0, 2]) + "/" + DecimalString(24) == "10.1.0.2/24"
  {
    assert DecimalString(10) == "10" && DecimalString(1) == "1";
    assert DecimalString(0) == "0" && DecimalString(2) == "2";
    assert DecimalString(24) == "24";
    assert FormatIpv4([10, 1, 0, 2]) == Join(["10", "1", "0", "2"], '.');
  }

  /** "10.0.0.2/24" and "10.1.0.2/24" are IPv4 addresses with netmask. */
  lemma Ipv4AddressExample(address: string)
    requires address == "10.0.0.2/24" || address == "10.1.0.2/24"
    ensures IsValidIpv4Address(address)
  {
    if address == "10.0.0.2/24" {
      Ipv4AddressText();
      var o :| o == [10, 0, 0, 2];
      assert address == FormatIpv4(o) + "/" + DecimalString(24);
      Ipv4CidrValidity(o, 24);
    } else {
      Ipv4S1AddressText();
      var o :| o == [10, 1, 0, 2];
      assert address == FormatIpv4(o) + "/" + DecimalString(24);
      Ipv4CidrValidity(o, 24);
    }
  }

  /** The bare "10.0.0.2" carries no netmask and is refused as an address. */
  lemma Ipv4BareAddressRefused(bare: string)
    requires bare == "10.0.0.2"
    ensures !IsValidIpv4Address(bare)
  {
    Ipv4AddressText();
    var o :| o == [10, 0, 0, 2];
    assert bare == FormatIpv4(o);
    Ipv4GatewayValidity(o);
  }

  /** "10.0.0.1" is an IPv4 gateway. */
  lemma Ipv4GatewayExample(gateway: string)
    requires gateway == "10.0.0.1"
    ensures IsValidIpv4Gateway(gateway)
  {
    Ipv4GatewayText();
    var g :| g == [10, 0, 0, 1];
    assert gateway == FormatIpv4(g);
    Ipv4GatewayValidity(g);
  }

  /** The IPv6 texts of the tests, spelled in full, which differ only in their first
      and last groups. */
  function TestIpv6(first: string, last: string): string
  {
    first + ":" + ("0db8" + ":" + ("85a3" + ":" + ("0000" + ":" + TestIpv6Tail(last))))
  }

  /** The last four groups of those texts. */
  function TestIpv6Tail(last: string): string
  {
    "0000" + ":" + ("8a2e" + ":" + ("0370" + ":" + last))
  }

  /** The last four groups of the test addresses, joined. */
  lemma Ipv6TestTail(first: string, last: string, parts: seq<string>)
    requires parts == [first, "0db8", "85a3", "0000", "0000", "8a2e", "0370", last]
    ensures Join(parts[4..], ':') == TestIpv6Tail(last)
  {
    assert parts[7..] == [parts[7]];
    JoinStep(parts, 6, ':');
    JoinStep(parts, 5, ':');
    JoinStep(parts, 4, ':');
  }

  /** The groups of the test addresses, joined, give the full texts. */
  lemma Ipv6TestText(first: string, last: string, parts: seq<string>, s: string)
    requires parts == [first, "0db8", "85a3", "0000", "0000", "8a2e", "0370", last]
    requires s == TestIpv6(first, last)
    ensures Join(parts, ':') == s
  {
    Ipv6TestTail(first, last, parts);
    JoinStep(parts, 3, ':');
    JoinStep(parts, 2, ':');
    JoinStep(parts, 1, ':');
    JoinStep(parts, 0, ':');
    assert parts[0..] == parts;
  }

  /** Their groups are one to four hexadecimal digits each. */
  lemma TestGroupsFullForm(first: string, last: string, parts: seq<string>)
    requires first == "2001" || first == "2002"
    requires last == "7331" || last == "7332" || last == "7334"
    requires parts == [first, "0db8", "85a3", "0000", "0000", "8a2e", "0370", last]
    ensures IsFullForm(parts)
  {
    assert IsHex(first) && IsHex("0db8") && IsHex("85a3") && IsHex("0000");
    assert IsHex("8a2e") && IsHex("0370") && IsHex(last);
  }

  /** The IPv6 addresses with netmask of the tests
      ("2001:0db8:85a3:0000:0000:8a2e:0370:7334/64" and the same under 2002) are
      accepted. */
  lemma Ipv6AddressExample(first: string, address: string)
    requires first == "2001" || first == "2002"
    requires address == TestIpv6(first, "7334") + "/64"
    ensures IsValidIpv6Address(address)
  {
    var a :| a == [first, "0db8", "85a3", "0000", "0000", "8a2e", "0370", "7334"];
    Ipv6TestText(first, "7334", a, TestIpv6(first, "7334"));
    TestGroupsFullForm(first, "7334", a);
    assert DecimalString(64) == "64";
    assert address == Join(a, ':') + "/" + DecimalString(64);
    Ipv6CidrValidity(a, 64);
  }

  /** The IPv6 gateway of the tests is accepted. */
  lemma Ipv6GatewayExample(gateway: string)
    requires gateway == TestIpv6("2001", "7331")
    ensures IsValidIpv6Gateway(gateway)
  {
    var g :| g == ["2001", "0db8", "85a3", "0000", "0000", "8a2e", "0370", "7331"];
    Ipv6TestText("2001", "7331", g, gateway);
    TestGroupsFullForm("2001", "7331", g);
    Ipv6GatewayValidity(g);
  }

  /** "2001:0db8:85a3:0000:0000:8a2e:0370:7332" carries no netmask and is refused as
      an address. */
  lemma Ipv6BareAddressRefused(address: string)
    requires address == TestIpv6("2001", "7332")
    ensures !IsValidIpv6Address(address)
  {
    var a :| a == ["2001", "0db8", "85a3", "0000", "0000", "8a2e", "0370", "7332"];
    Ipv6TestText("2001", "7332", a, address);
    TestGroupsFullForm("2001", "7332", a);
    Ipv6GatewayValidity(a);
  }

  /** The garbage values of the tests are refused by every validator. */
  lemma GarbageRefused(v: string)
    requires v == "invalidip" || v == "not a gateway" || v == "not ipv6"
    ensures !IsValidIpv4Address(v) && !IsValidIpv4Gateway(v)
    ensures !IsValidIpv6Address(v) && !IsValidIpv6Gateway(v)
  {
    assert '.' !in v && ':' !in v;
    NeitherDotNorColonRejected(v);
  }


  // ---------------------------------------------------------------- DNS

  lemma DefaultDnsText()
    ensures FormatIpv4([8, 8, 8, 8]) == "8.8.8.8"
  {
    assert DecimalString(8) == "8";
    assert FormatIpv4([8, 8, 8, 8]) == Join(["8", "8", "8", "8"], '.');
  }

  lemma SecondDnsOctets()
    ensures DecimalString(208) == "208" && DecimalString(67) == "67" && DecimalString(222) == "222"
  {
    assert DecimalString(20) == "20" && DecimalString(6) == "6" && DecimalString(22) == "22";
  }

  lemma SecondDnsText()
    ensures FormatIpv4([208, 67, 222, 222]) == "208.67.222.222"
  {
    SecondDnsOctets();
    assert FormatIpv4([208, 67, 222, 222]) == Join(["208", "67", "222", "222"], '.');
  }

  /** The default servers decode to two IPv4 addresses and are accepted. */
  lemma DefaultDnsAccepted(loads: string -> Option<Json>, dns: string, first: string, second: string)
    requires first == "8.8.8.8" && second == "208.67.222.222"
    requires loads(dns) == Some(JArray([JString(first), JString(second)]))
    ensures AreValidDns(loads, dns)
  {
    DefaultDnsText();
    SecondDnsText();
    var o :| o == [8, 8, 8, 8];
    var o' :| o' == [208, 67, 222, 222];
    assert first == FormatIpv4(o) && second == FormatIpv4(o');
    Ipv4RoundTrip(o);
    Ipv4RoundTrip(o');
  }

  /** `[134744072]` and `[true]` pass the DNS check, since `ip_address` reads an integer
      as an address (8.8.8.8 and 0.0.0.1), yet give no argument vector. */
  lemma NumericDnsAccepted(c: Config, loads: string -> Option<Json>)
    requires WellFormed(c) && !c.skipNetworking
    requires loads(c.dns) == Some(JArray([JInt(134744072)])) || loads(c.dns) == Some(JArray([JBool(true)]))
    ensures AreValidDns(loads, c.dns)
    ensures Arguments(c, loads).None?
  {
    NonStringServerNoVector(c, loads, loads(c.dns).value.items, 0);
  }

  /** The host name the tests put in a DNS list, "dns1.example.com". */
  const HOST_NAME: string := "dns1" + "." + ("example" + "." + "com")

  /** A host name is no IP address: "dns1.example.com" has three dotted parts and
      no colon. */
  lemma HostNameIsNoAddress(name: string)
    requires name == HOST_NAME
    ensures IpAddress(name).None?
  {
    var parts :| parts == ["dns1", "example", "com"];
    JoinStep(parts, 1, '.');
    JoinStep(parts, 0, '.');
    assert parts[2..] == [parts[2]] && parts[0..] == parts;
    SplitJoin(parts, '.');
    assert ':' !in name;
    NoColonNoIpv6(name);
  }

  /** Text that does not decode, a decoded object and a list holding a host name are
      all refused. */
  lemma InvalidDnsRefused(loads: string -> Option<Json>, notJson: string, mapping: string,
                          named: string, name: string)
    requires name == HOST_NAME
    requires loads(notJson).None?
    requires loads(mapping) == Some(JObject([("dns", JString("8.8.8.8"))]))
    requires loads(named) == Some(JArray([JString("8.8.8.8"), JString(name)]))
    ensures !AreValidDns(loads, notJson) && !AreValidDns(loads, mapping) && !AreValidDns(loads, named)
  {
    HostNameIsNoAddress(name);
    assert !IsIpAddressValue(loads(named).value.items[1]);
  }

  // ---------------------------------------------------------------- configurations

  /** The sgi ladder once all four settings are set and both IPv4 settings are well
      formed: the IPv6 address is judged before the IPv6 gateway. */
  lemma SgiIpv6Verdict(c: Config)
    requires Truthy(c.sgiIpv4Address) && Truthy(c.sgiIpv4Gateway)
    requires Truthy(c.sgiIpv6Address) && Truthy(c.sgiIpv6Gateway)
    ensures IsValidIpv4Address(c.sgiIpv4Address.value) && IsValidIpv4Gateway(c.sgiIpv4Gateway.value)
            && !IsValidIpv6Address(c.sgiIpv6Address.value) ==>
              SgiAddressingCheck(c) == Check(false, [SGI_IPV6_ADDRESS])
    ensures IsValidIpv4Address(c.sgiIpv4Address.value) && IsValidIpv4Gateway(c.sgiIpv4Gateway.value)
            && IsValidIpv6Address(c.sgiIpv6Address.value) && !IsValidIpv6Gateway(c.sgiIpv6Gateway.value) ==>
              SgiAddressingCheck(c) == Check(false, [SGI_IPV6_GATEWAY])
    ensures IsValidIpv4Address(c.sgiIpv4Address.value) && IsValidIpv4Gateway(c.sgiIpv4Gateway.value)
            && IsValidIpv6Address(c.sgiIpv6Address.value) && IsValidIpv6Gateway(c.sgiIpv6Gateway.value) ==>
              SgiAddressingCheck(c) == Check(true, [])
  {
  }

  /** The s1 ladder once both addresses are set and the IPv4 one is well formed. */
  lemma S1Ipv6Verdict(c: Config)
    requires Truthy(c.s1Ipv4Address) && Truthy(c.s1Ipv6Address)
    requires IsValidIpv4Address(c.s1Ipv4Address.value)
    ensures !IsValidIpv6Address(c.s1Ipv6Address.value) ==>
              S1AddressingCheck(c) == Check(false, [S1_IPV6_ADDRESS])
    ensures IsValidIpv6Address(c.s1Ipv6Address.value) ==> S1AddressingCheck(c) == Check(true, [])
  {
  }

  /** The sgi address is refused ("invalidip", or the bare "10.0.0.2"), next to a
      valid gateway. */
  lemma SgiInvalidIpv4Address(c: Config, address: string)
    requires address == "invalidip" || address == "10.0.0.2"
    requires c.sgiIpv4Address == Some(address) && c.sgiIpv4Gateway == Some("10.0.0.1")
    requires c.sgiIpv6Address.None? && c.sgiIpv6Gateway.None?
    ensures SgiAddressingCheck(c) == Check(false, [SGI_IPV4_ADDRESS])
  {
    var a4 := c.sgiIpv4Address.value;
    if a4 == "invalidip" {
      GarbageRefused(a4);
    } else {
      Ipv4BareAddressRefused(a4);
    }
    Ipv4GatewayExample(c.sgiIpv4Gateway.value);
  }

  /** A valid sgi address next to "not a gateway". */
  lemma SgiInvalidIpv4Gateway(c: Config)
    requires c.sgiIpv4Address == Some("10.0.0.2/24") && c.sgiIpv4Gateway == Some("not a gateway")
    requires c.sgiIpv6Address.None? && c.sgiIpv6Gateway.None?
    ensures SgiAddressingCheck(c) == Check(false, [SGI_IPV4_GATEWAY])
  {
    Ipv4AddressExample(c.sgiIpv4Address.value);
    GarbageRefused(c.sgiIpv4Gateway.value);
  }

  /** Valid IPv4 settings, "not ipv6" as the IPv6 address and a valid IPv6 gateway. */
  lemma SgiInvalidIpv6Address(c: Config)
    requires c.sgiIpv4Address == Some("10.0.0.2/24") && c.sgiIpv4Gateway == Some("10.0.0.1")
    requires c.sgiIpv6Address == Some("not ipv6")
    requires c.sgiIpv6Gateway == Some(TestIpv6("2001", "7331"))
    ensures SgiAddressingCheck(c) == Check(false, [SGI_IPV6_ADDRESS])
  {
    Ipv4AddressExample(c.sgiIpv4Address.value);
    Ipv4GatewayExample(c.sgiIpv4Gateway.value);
    GarbageRefused(c.sgiIpv6Address.value);
    SgiIpv6Verdict(c);
  }

  /** Valid IPv4 settings and an IPv6 address without netmask. */
  lemma SgiIpv6MissingNetmask(c: Config)
    requires c.sgiIpv4Address == Some("10.0.0.2/24") && c.sgiIpv4Gateway == Some("10.0.0.1")
    requires c.sgiIpv6Address == Some(TestIpv6("2001", "7332"))
    requires c.sgiIpv6Gateway == Some(TestIpv6("2001", "7331"))
    ensures SgiAddressingCheck(c) == Check(false, [SGI_IPV6_ADDRESS])
  {
    Ipv4AddressExample(c.sgiIpv4Address.value);
    Ipv4GatewayExample(c.sgiIpv4Gateway.value);
    Ipv6BareAddressRefused(c.sgiIpv6Address.value);
    SgiIpv6Verdict(c);
  }

  /** Valid IPv4 settings and IPv6 address, "not a gateway" as the IPv6 gateway. */
  lemma SgiInvalidIpv6Gateway(c: Config)
    requires c.sgiIpv4Address == Some("10.0.0.2/24") && c.sgiIpv4Gateway == Some("10.0.0.1")
    requires c.sgiIpv6Address == Some(TestIpv6("2001", "7334") + "/64")
    requires c.sgiIpv6Gateway == Some("not a gateway")
    ensures SgiAddressingCheck(c) == Check(false, [SGI_IPV6_GATEWAY])
  {
    Ipv4AddressExample(c.sgiIpv4Address.value);
    Ipv4GatewayExample(c.sgiIpv4Gateway.value);
    GarbageRefused(c.sgiIpv6Gateway.value);
    Ipv6AddressExample("2001", c.sgiIpv6Address.value);
    SgiIpv6Verdict(c);
  }

  /** Half a pair, or IPv6 alone: the sgi ladder stops at the pairing rungs before
      any value is parsed, and the s1 ladder refuses IPv6 without IPv4. */
  lemma IncompleteAddressingRefused(c: Config)
    ensures OnlyOneOf(c.sgiIpv4Address, c.sgiIpv4Gateway) ==>
              SgiAddressingCheck(c) == Check(false, [SGI_IPV4_PAIR])
    ensures !Truthy(c.sgiIpv4Address) && !Truthy(c.sgiIpv4Gateway)
            && OnlyOneOf(c.sgiIpv6Address, c.sgiIpv6Gateway) ==>
              SgiAddressingCheck(c) == Check(false, [SGI_IPV6_PAIR])
    ensures !Truthy(c.sgiIpv4Address) && !Truthy(c.sgiIpv4Gateway)
            && Truthy(c.sgiIpv6Address) && Truthy(c.sgiIpv6Gateway) ==>
              SgiAddressingCheck(c) == Check(false, [SGI_PURE_IPV6])
    ensures !Truthy(c.s1Ipv4Address) && Truthy(c.s1Ipv6Address) ==>
              S1AddressingCheck(c) == Check(false, [S1_PURE_IPV6])
  {
  }

  /** "invalidip" as the s1 address. */
  lemma S1InvalidIpv4Address(c: Config)
    requires c.s1Ipv4Address == Some("invalidip") && c.s1Ipv6Address.None?
    ensures S1AddressingCheck(c) == Check(false, [S1_IPV4_ADDRESS])
  {
    GarbageRefused(c.s1Ipv4Address.value);
  }

  /** A valid s1 IPv4 address next to "not ipv6". */
  lemma S1InvalidIpv6Address(c: Config)
    requires c.s1Ipv4Address == Some("10.0.0.2/24") && c.s1Ipv6Address == Some("not ipv6")
    ensures S1AddressingCheck(c) == Check(false, [S1_IPV6_ADDRESS])
  {
    Ipv4AddressExample(c.s1Ipv4Address.value);
    GarbageRefused(c.s1Ipv6Address.value);
    S1Ipv6Verdict(c);
  }

  /** The complete configuration of the installation test. */
  predicate FullTestConfig(c: Config)
  {
    && !c.skipNetworking
    && c.sgi == Some("enp0s1") && c.s1 == Some("enp0s2")
    && c.sgiIpv4Address == Some("10.0.0.2/24") && c.sgiIpv4Gateway == Some("10.0.0.1")
    && c.sgiIpv6Address == Some(TestIpv6("2001", "7334") + "/64")
    && c.sgiIpv6Gateway == Some(TestIpv6("2001", "7331"))
    && c.s1Ipv4Address == Some("10.1.0.2/24")
    && c.s1Ipv6Address == Some(TestIpv6("2002", "7334") + "/64")
    && c.order == [Sgi, S1, SgiIpv4Address, SgiIpv4Gateway, SgiIpv6Address, SgiIpv6Gateway,
                   S1Ipv4Address, S1Ipv6Address]
  }

  /** Both addressing ladders accept the complete configuration. */
  lemma FullAddressingAccepted(c: Config)
    requires FullTestConfig(c)
    ensures SgiAddressingCheck(c) == Check(true, [])
    ensures S1AddressingCheck(c) == Check(true, [])
  {
    Ipv4AddressExample(c.sgiIpv4Address.value);
    Ipv4AddressExample(c.s1Ipv4Address.value);
    Ipv4GatewayExample(c.sgiIpv4Gateway.value);
    Ipv6AddressExample("2001", c.sgiIpv6Address.value);
    Ipv6AddressExample("2002", c.s1Ipv6Address.value);
    Ipv6GatewayExample(c.sgiIpv6Gateway.value);
    SgiIpv6Verdict(c);
    S1Ipv6Verdict(c);
  }

  /** The complete configuration, with both interfaces present and the default
      servers, passes validation without a warning. */
  lemma FullConfigurationValid(c: Config, loads: string -> Option<Json>, first: string, second: string)
    requires FullTestConfig(c)
    requires first == "8.8.8.8" && second == "208.67.222.222"
    requires loads(c.dns) == Some(JArray([JString(first), JString(second)]))
    ensures Diagnostics(c, {"enp0s1", "enp0s2"}, loads) == []
    ensures ConfigurationAcceptable(c, {"enp0s1", "enp0s2"}, loads)
  {
    FullAddressingAccepted(c);
    DefaultDnsAccepted(loads, c.dns, first, second);
  }

  /** The pairs of a prefix two keys longer. */
  lemma {:induction false} FlagPairsExtendTwice(c: Config, keys: seq<Key>, n: nat, before: seq<string>)
    requires n + 2 <= |keys|
    requires forall i :: 0 <= i < |keys| ==> Get(c, keys[i]).Some?
    requires FlagPairs(c, keys[..n]) == before
    ensures FlagPairs(c, keys[..n + 2]) == before + [Flag(keys[n]), Get(c, keys[n]).value,
                                                     Flag(keys[n + 1]), Get(c, keys[n + 1]).value]
  {
    FlagPairsExtend(c, keys, n);
    FlagPairsExtend(c, keys, n + 1);
  }

  /** The complete configuration lists each of its options once. */
  lemma FullConfigurationWellFormed(c: Config)
    requires FullTestConfig(c)
    ensures WellFormed(c)
  {
    forall k: Key ensures k in c.order {
      match k
      case Sgi => assert c.order[0] == k;
      case S1 => assert c.order[1] == k;
      case SgiIpv4Address => assert c.order[2] == k;
      case SgiIpv4Gateway => assert c.order[3] == k;
      case SgiIpv6Address => assert c.order[4] == k;
      case SgiIpv6Gateway => assert c.order[5] == k;
      case S1Ipv4Address => assert c.order[6] == k;
      case S1Ipv6Address => assert c.order[7] == k;
    }
  }

  /** The pairs of eight present keys, built two keys at a time. */
  lemma {:induction false} PairsUpTo2(c: Config, o: seq<Key>)
    requires |o| == 8
    requires forall i :: 0 <= i < |o| ==> Get(c, o[i]).Some?
    ensures FlagPairs(c, o[..2]) == [Flag(o[0]), Get(c, o[0]).value, Flag(o[1]), Get(c, o[1]).value]
  {
    assert FlagPairs(c, o[..0]) == [];
    FlagPairsExtendTwice(c, o, 0, []);
    assert [] + [Flag(o[0]), Get(c, o[0]).value, Flag(o[1]), Get(c, o[1]).value] == [Flag(o[0]), Get(c, o[0]).value, Flag(o[1]), Get(c, o[1]).value];
  }

  lemma {:induction false} PairsUpTo4(c: Config, o: seq<Key>)
    requires |o| == 8
    requires forall i :: 0 <= i < |o| ==> Get(c, o[i]).Some?
    ensures FlagPairs(c, o[..4]) == [Flag(o[0]), Get(c, o[0]).value, Flag(o[1]), Get(c, o[1]).value]
                                  + [Flag(o[2]), Get(c, o[2]).value, Flag(o[3]), Get(c, o[3]).value]
  {
    PairsUpTo2(c, o);
    FlagPairsExtendTwice(c, o, 2, [Flag(o[0]), Get(c, o[0]).value, Flag(o[1]), Get(c, o[1]).value]);
  }

  lemma {:induction false} PairsUpTo6(c: Config, o: seq<Key>)
    requires |o| == 8
    requires forall i :: 0 <= i < |o| ==> Get(c, o[i]).Some?
    ensures FlagPairs(c, o[..6]) == [Flag(o[0]), Get(c, o[0]).value, Flag(o[1]), Get(c, o[1]).value]
                                  + [Flag(o[2]), Get(c, o[2]).value, Flag(o[3]), Get(c, o[3]).value]
                                  + [Flag(o[4]), Get(c, o[4]).value, Flag(o[5]), Get(c, o[5]).value]
  {
    PairsUpTo4(c, o);
    FlagPairsExtendTwice(c, o, 4, [Flag(o[0]), Get(c, o[0]).value, Flag(o[1]), Get(c, o[1]).value] + [Flag(o[2]), Get(c, o[2]).value, Flag(o[3]), Get(c, o[3]).value]);
  }

  lemma {:induction false} EightPairs(c: Config, o: seq<Key>)
    requires |o| == 8
    requires forall i :: 0 <= i < |o| ==> Get(c, o[i]).Some?
    ensures FlagPairs(c, o) == [Flag(o[0]), Get(c, o[0]).value, Flag(o[1]), Get(c, o[1]).value]
                             + [Flag(o[2]), Get(c, o[2]).value, Flag(o[3]), Get(c, o[3]).value]
                             + [Flag(o[4]), Get(c, o[4]).value, Flag(o[5]), Get(c, o[5]).value]
                             + [Flag(o[6]), Get(c, o[6]).value, Flag(o[7]), Get(c, o[7]).value]
  {
    PairsUpTo6(c, o);
    FlagPairsExtendTwice(c, o, 6, [Flag(o[0]), Get(c, o[0]).value, Flag(o[1]), Get(c, o[1]).value] + [Flag(o[2]), Get(c, o[2]).value, Flag(o[3]), Get(c, o[3]).value] + [Flag(o[4]), Get(c, o[4]).value, Flag(o[5]), Get(c, o[5]).value]);
    assert o[..8] == o;
  }

  /** The flag and value pairs of the complete configuration. */
  lemma FullOptionPairs(c: Config)
    requires FullTestConfig(c)
    ensures FlagPairs(c, c.order) ==
      [Flag(Sgi), "enp0s1", Flag(S1), "enp0s2"]
      + [Flag(SgiIpv4Address), "10.0.0.2/24", Flag(SgiIpv4Gateway), "10.0.0.1"]
      + [Flag(SgiIpv6Address), TestIpv6("2001", "7334") + "/64", Flag(SgiIpv6Gateway), TestIpv6("2001", "7331")]
      + [Flag(S1Ipv4Address), "10.1.0.2/24", Flag(S1Ipv6Address), TestIpv6("2002", "7334") + "/64"]
  {
    EightPairs(c, c.order);
  }

  /** With two servers listed, the servers follow the DNS flag and precede the
      options. */
  lemma TwoServerArguments(c: Config, loads: string -> Option<Json>, first: string, second: string)
    requires WellFormed(c) && !c.skipNetworking
    requires loads(c.dns) == Some(JArray([JString(first), JString(second)]))
    ensures Arguments(c, loads) == Some([DNS_FLAG, first, second] + FlagPairs(c, c.order))
  {
    var servers := [JString(first), JString(second)];
    var names := StringItems(servers).value;
    assert names[0] == first && names[1] == second;
    assert names == [first, second];
    assert Extension(JArray(servers)) == Some([first, second]);
    assert [DNS_FLAG] + [first, second] == [DNS_FLAG, first, second];
  }

  /** The installer receives the DNS servers, then every option in configuration
      order. */
  lemma FullConfigurationArguments(c: Config, loads: string -> Option<Json>, first: string, second: string)
    requires FullTestConfig(c)
    requires first == "8.8.8.8" && second == "208.67.222.222"
    requires loads(c.dns) == Some(JArray([JString(first), JString(second)]))
    ensures WellFormed(c)
    ensures Arguments(c, loads) == Some(
      [DNS_FLAG, first, second]
      + [Flag(Sgi), "enp0s1", Flag(S1), "enp0s2"]
      + [Flag(SgiIpv4Address), "10.0.0.2/24", Flag(SgiIpv4Gateway), "10.0.0.1"]
      + [Flag(SgiIpv6Address), TestIpv6("2001", "7334") + "/64", Flag(SgiIpv6Gateway), TestIpv6("2001", "7331")]
      + [Flag(S1Ipv4Address), "10.1.0.2/24", Flag(S1Ipv6Address), TestIpv6("2002", "7334") + "/64"])
  {
    FullConfigurationWellFormed(c);
    FullOptionPairs(c);
    TwoServerArguments(c, loads, first, second);
    var a := [Flag(Sgi), "enp0s1", Flag(S1), "enp0s2"];
    var b := [Flag(SgiIpv4Address), "10.0.0.2/24", Flag(SgiIpv4Gateway), "10.0.0.1"];
    var d := [Flag(SgiIpv6Address), TestIpv6("2001", "7334") + "/64", Flag(SgiIpv6Gateway), TestIpv6("2001", "7331")];
    var e := [Flag(S1Ipv4Address), "10.1.0.2/24", Flag(S1Ipv6Address), TestIpv6("2002", "7334") + "/64"];
    assert [DNS_FLAG, first, second] + (a + b + d + e) == [DNS_FLAG, first, second] + a + b + d + e;
  }
}
