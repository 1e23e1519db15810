/** The configuration validator `_is_configuration_valid` and the checks it runs
    (src/charm.py).  Each check returns its verdict together with the warnings it logs;
    `netifaces.interfaces()` is the parameter `host`, the set of interface names present
    on the machine. */
module Validation {
  import opened Wrappers
  import opened Json
  import opened CharmConfig
  import opened AddressValidators
  import opened Dns

  /** A check's verdict and the warnings it logged, in order. */
  datatype Check = Check(ok: bool, log: seq<string>)

  /** A single check logs exactly one warning when it fails and none when it passes. */
  predicate Reports(r: Check)
  {
    (r.ok <==> r.log == []) && |r.log| <= 1
  }

  /** The names Magma gives the two interfaces once it is installed. */
  const SGI_RENAMED: string := "eth0"
  const S1_RENAMED: string := "eth1"

  const INVALID_DNS: string := "Invalid DNS configuration"

  /** The warning for an interface option that is not set. */
  function NameRequired(key: string): string { key + " interface name is required" }

  /** The warning for an interface that exists under neither name. */
  function NotFound(name: string): string { name + " interface not found" }

  // ---------------------------------------------------------------- interfaces

  /** `_is_valid_interface(key, renamed)`: the option must be set to a non-empty name,
      and either that name or the name Magma will give the interface must exist. */
  function InterfaceCheck(key: string, configured: Option<string>, renamed: string,
                          host: set<string>): (r: Check)
    ensures Reports(r)
    ensures r.ok <==> Truthy(configured) && (configured.value in host || renamed in host)
    ensures !Truthy(configured) ==> r.log == [NameRequired(key)]
    ensures Truthy(configured) && !r.ok ==> r.log == [NotFound(configured.value)]
  {
    if !Truthy(configured) then Check(false, [NameRequired(key)])
    else if configured.value !in host && renamed !in host then
      Check(false, [NotFound(configured.value)])
    else Check(true, [])
  }

  /** After installation has renamed the interface, any configured name passes as long
      as the new name is present. */
  lemma RenamedInterfaceSuffices(key: string, configured: string, renamed: string,
                                 host: set<string>)
    requires configured != "" && renamed in host
    ensures InterfaceCheck(key, Some(configured), renamed, host) == Check(true, [])
  {
  }

  // ---------------------------------------------------------------- rule ladders

  /** One rung of an if/return ladder: when `fails` holds, `message` is logged and the
      check stops there. */
  datatype Rule = Rule(fails: bool, message: string)

  /** The verdict of a ladder: the first failing rule decides, later rules are
      skipped. */
  function FirstFailure(rules: seq<Rule>): (r: Check)
    ensures Reports(r)
    ensures r.ok <==> forall i :: 0 <= i < |rules| ==> !rules[i].fails
    ensures !r.ok ==> exists i :: 0 <= i < |rules| && rules[i].fails
                        && (forall j :: 0 <= j < i ==> !rules[j].fails)
                        && r.log == [rules[i].message]
  {
    if rules == [] then Check(true, [])
    else if rules[0].fails then Check(false, [rules[0].message])
    else
      var r := FirstFailure(rules[1..]);
      assert !r.ok ==> exists i :: 1 <= i < |rules| && rules[i].fails
                        && (forall j :: 0 <= j < i ==> !rules[j].fails)
                        && r.log == [rules[i].message] by {
        if !r.ok {
          var i :| 0 <= i < |rules[1..]| && rules[1..][i].fails
                   && (forall j :: 0 <= j < i ==> !rules[1..][j].fails)
                   && r.log == [rules[1..][i].message];
          assert forall j :: 1 <= j < i + 1 ==> !rules[j].fails by {
            forall j | 1 <= j < i + 1 ensures !rules[j].fails {
              assert rules[j] == rules[1..][j - 1];
            }
          }
        }
      }
      r
  }

  /** A ladder read from rung k on: rung k decides if it fails, otherwise the rest do. */
  lemma {:induction false} FirstFailureStep(rules: seq<Rule>, k: nat)
    requires k < |rules|
    ensures FirstFailure(rules[k..]) ==
      if rules[k].fails then Check(false, [rules[k].message]) else FirstFailure(rules[k + 1..])
  {
    assert rules[k..][1..] == rules[k + 1..];
  }

  /** A seven-rung ladder spelled out. */
  lemma SevenRungs(rules: seq<Rule>)
    requires |rules| == 7
    ensures FirstFailure(rules) ==
      if rules[0].fails then Check(false, [rules[0].message])
      else if rules[1].fails then Check(false, [rules[1].message])
      else if rules[2].fails then Check(false, [rules[2].message])
      else if rules[3].fails then Check(false, [rules[3].message])
      else if rules[4].fails then Check(false, [rules[4].message])
      else if rules[5].fails then Check(false, [rules[5].message])
      else if rules[6].fails then Check(false, [rules[6].message])
      else Check(true, [])
  {
    assert rules[7..] == [];
    FirstFailureStep(rules, 6);
    FirstFailureStep(rules, 5);
    FirstFailureStep(rules, 4);
    FirstFailureStep(rules, 3);
    FirstFailureStep(rules, 2);
    FirstFailureStep(rules, 1);
    FirstFailureStep(rules, 0);
    assert rules[0..] == rules;
  }

  /** `any([a, b]) and not all([a, b])`: exactly one of the two is set. */
  predicate OnlyOneOf(a: Option<string>, b: Option<string>)
  {
    Truthy(a) != Truthy(b)
  }

  const SGI_IPV4_PAIR: string := "Both IPv4 address and gateway required for interface sgi"
  const SGI_IPV6_PAIR: string := "Both IPv6 address and gateway required for interface sgi"
  const SGI_PURE_IPV6: string := "Pure IPv6 configuration is not supported for interface sgi"
  const SGI_IPV4_ADDRESS: string := "Invalid IPv4 address and netmask for interface sgi"
  const SGI_IPV4_GATEWAY: string := "Invalid IPv4 gateway for interface sgi"
  const SGI_IPV6_ADDRESS: string := "Invalid IPv6 address and netmask for interface sgi"
  const SGI_IPV6_GATEWAY: string := "Invalid IPv6 gateway for interface sgi"

  const S1_PURE_IPV6: string := "Pure IPv6 configuration is not supported for interface s1"
  const S1_IPV4_ADDRESS: string := "Invalid IPv4 address and netmask for interface s1"
  const S1_IPV6_ADDRESS: string := "Invalid IPv6 address and netmask for interface s1"

  /** A set option whose value the validator refuses. */
  predicate SetButInvalid(v: Option<string>, valid: string -> bool)
  {
    Truthy(v) && !valid(v.value)
  }

  /** What an acceptable sgi addressing looks like: each family is configured with
      both address and gateway or not at all, IPv6 only next to IPv4, and every value
      is well formed. */
  predicate SgiAcceptable(c: Config)
  {
    && Truthy(c.sgiIpv4Address) == Truthy(c.sgiIpv4Gateway)
    && Truthy(c.sgiIpv6Address) == Truthy(c.sgiIpv6Gateway)
    && (Truthy(c.sgiIpv6Address) ==> Truthy(c.sgiIpv4Address))
    && (Truthy(c.sgiIpv4Address) ==> IsValidIpv4Address(c.sgiIpv4Address.value))
    && (Truthy(c.sgiIpv4Gateway) ==> IsValidIpv4Gateway(c.sgiIpv4Gateway.value))
    && (Truthy(c.sgiIpv6Address) ==> IsValidIpv6Address(c.sgiIpv6Address.value))
    && (Truthy(c.sgiIpv6Gateway) ==> IsValidIpv6Gateway(c.sgiIpv6Gateway.value))
  }

  /** `_is_valid_sgi_interface_addressing_configuration`. */
  function SgiAddressingCheck(c: Config): (r: Check)
    ensures Reports(r)
    ensures r.ok <==> SgiAcceptable(c)
  {
    var a4, g4, a6, g6 := c.sgiIpv4Address, c.sgiIpv4Gateway, c.sgiIpv6Address, c.sgiIpv6Gateway;
    if !Truthy(a4) && !Truthy(g4) && !Truthy(a6) && !Truthy(g6) then Check(true, [])
    else if OnlyOneOf(a4, g4) then Check(false, [SGI_IPV4_PAIR])
    else if OnlyOneOf(a6, g6) then Check(false, [SGI_IPV6_PAIR])
    else if Truthy(a6) && !Truthy(a4) then Check(false, [SGI_PURE_IPV6])
    else if SetButInvalid(a4, IsValidIpv4Address) then Check(false, [SGI_IPV4_ADDRESS])
    else if SetButInvalid(g4, IsValidIpv4Gateway) then Check(false, [SGI_IPV4_GATEWAY])
    else if SetButInvalid(a6, IsValidIpv6Address) then Check(false, [SGI_IPV6_ADDRESS])
    else if SetButInvalid(g6, IsValidIpv6Gateway) then Check(false, [SGI_IPV6_GATEWAY])
    else Check(true, [])
  }

  /** The sgi rules in the order the validator tries them. */
  function SgiRules(c: Config): (rules: seq<Rule>)
    ensures |rules| == 7
  {
    [ Rule(OnlyOneOf(c.sgiIpv4Address, c.sgiIpv4Gateway), SGI_IPV4_PAIR),
      Rule(OnlyOneOf(c.sgiIpv6Address, c.sgiIpv6Gateway), SGI_IPV6_PAIR),
      Rule(Truthy(c.sgiIpv6Address) && !Truthy(c.sgiIpv4Address), SGI_PURE_IPV6),
      Rule(SetButInvalid(c.sgiIpv4Address, IsValidIpv4Address), SGI_IPV4_ADDRESS),
      Rule(SetButInvalid(c.sgiIpv4Gateway, IsValidIpv4Gateway), SGI_IPV4_GATEWAY),
      Rule(SetButInvalid(c.sgiIpv6Address, IsValidIpv6Address), SGI_IPV6_ADDRESS),
      Rule(SetButInvalid(c.sgiIpv6Gateway, IsValidIpv6Gateway), SGI_IPV6_GATEWAY) ]
  }

  /** The early return for an unconfigured sgi interface agrees with the ladder: with
      nothing set no rule fails, so the check's diagnostic is always the message of its
      first failing rule. */
  lemma SgiFirstFailure(c: Config)
    ensures SgiAddressingCheck(c) == FirstFailure(SgiRules(c))
  {
    var rules := SgiRules(c);
    SevenRungs(rules);
  }

  /** What an acceptable s1 addressing looks like: IPv6 only next to IPv4, and every
      address is well formed.  Gateways are not consulted. */
  predicate S1Acceptable(c: Config)
  {
    && (Truthy(c.s1Ipv6Address) ==> Truthy(c.s1Ipv4Address))
    && (Truthy(c.s1Ipv4Address) ==> IsValidIpv4Address(c.s1Ipv4Address.value))
    && (Truthy(c.s1Ipv6Address) ==> IsValidIpv6Address(c.s1Ipv6Address.value))
  }

  /** `_is_valid_s1_interface_addressing_configuration`. */
  function S1AddressingCheck(c: Config): (r: Check)
    ensures Reports(r)
    ensures r.ok <==> S1Acceptable(c)
  {
    var a4, a6 := c.s1Ipv4Address, c.s1Ipv6Address;
    if !Truthy(a4) && !Truthy(a6) then Check(true, [])
    else if Truthy(a6) && !Truthy(a4) then Check(false, [S1_PURE_IPV6])
    else if SetButInvalid(a4, IsValidIpv4Address) then Check(false, [S1_IPV4_ADDRESS])
    else if SetButInvalid(a6, IsValidIpv6Address) then Check(false, [S1_IPV6_ADDRESS])
    else Check(true, [])
  }

  /** The s1 rules in the order the validator tries them. */
  function S1Rules(c: Config): (rules: seq<Rule>)
    ensures |rules| == 3
  {
    [ Rule(Truthy(c.s1Ipv6Address) && !Truthy(c.s1Ipv4Address), S1_PURE_IPV6),
      Rule(SetButInvalid(c.s1Ipv4Address, IsValidIpv4Address), S1_IPV4_ADDRESS),
      Rule(SetButInvalid(c.s1Ipv6Address, IsValidIpv6Address), S1_IPV6_ADDRESS) ]
  }

  lemma S1FirstFailure(c: Config)
    ensures S1AddressingCheck(c) == FirstFailure(S1Rules(c))
  {
    var rules := S1Rules(c);
    assert rules[3..] == [];
    FirstFailureStep(rules, 2);
    FirstFailureStep(rules, 1);
    FirstFailureStep(rules, 0);
    assert rules[0..] == rules;
  }

  /** The two ladders differ: a valid IPv4 address without a gateway is refused on sgi
      and accepted on s1. */
  lemma GatewayAsymmetry(c: Config, address: string)
    requires address != "" && IsValidIpv4Address(address)
    requires c.sgiIpv4Address == Some(address) && !Truthy(c.sgiIpv4Gateway)
    requires c.s1Ipv4Address == Some(address) && !Truthy(c.s1Ipv6Address)
    ensures SgiAddressingCheck(c) == Check(false, [SGI_IPV4_PAIR])
    ensures S1AddressingCheck(c) == Check(true, [])
  {
  }

  // ---------------------------------------------------------------- the aggregate

  /** The warning of the DNS check. */
  function DnsLog(loads: string -> Option<Json>, dns: string): (log: seq<string>)
    ensures log == [] <==> AreValidDns(loads, dns)
    ensures !AreValidDns(loads, dns) ==> log == [INVALID_DNS]
  {
    if AreValidDns(loads, dns) then [] else [INVALID_DNS]
  }

  /** Every warning validation logs, in order: sgi interface, s1 interface, sgi
      addressing, s1 addressing, DNS.  Nothing is checked when networking is skipped. */
  function Diagnostics(c: Config, host: set<string>, loads: string -> Option<Json>): seq<string>
  {
    if c.skipNetworking then []
    else
      InterfaceCheck("sgi", c.sgi, SGI_RENAMED, host).log
      + InterfaceCheck("s1", c.s1, S1_RENAMED, host).log
      + SgiAddressingCheck(c).log
      + S1AddressingCheck(c).log
      + DnsLog(loads, c.dns)
  }

  /** The configuration validation accepts: networking is skipped, or all five checks
      pass. */
  predicate ConfigurationAcceptable(c: Config, host: set<string>, loads: string -> Option<Json>)
  {
    || c.skipNetworking
    || (&& InterfaceCheck("sgi", c.sgi, SGI_RENAMED, host).ok
        && InterfaceCheck("s1", c.s1, S1_RENAMED, host).ok
        && SgiAcceptable(c)
        && S1Acceptable(c)
        && AreValidDns(loads, c.dns))
  }

  /** `_is_configuration_valid`: every check runs whatever the earlier ones found, and
      the configuration is valid exactly when no warning was logged. */
  method IsConfigurationValid(c: Config, host: set<string>, loads: string -> Option<Json>)
    returns (valid: bool, log: seq<string>)
    ensures log == Diagnostics(c, host, loads)
    ensures valid <==> ConfigurationAcceptable(c, host, loads)
    ensures valid <==> log == []
  {
    if c.skipNetworking {
      return true, [];
    }
    var sgi := InterfaceCheck("sgi", c.sgi, SGI_RENAMED, host);
    valid, log := sgi.ok, sgi.log;
    var s1 := InterfaceCheck("s1", c.s1, S1_RENAMED, host);
    log := log + s1.log;
    if !s1.ok {
      valid := false;
    }
    var sgiAddressing := SgiAddressingCheck(c);
    log := log + sgiAddressing.log;
    if !sgiAddressing.ok {
      valid := false;
    }
    var s1Addressing := S1AddressingCheck(c);
    log := log + s1Addressing.log;
    if !s1Addressing.ok {
      valid := false;
    }
    if !AreValidDns(loads, c.dns) {
      log := log + [INVALID_DNS];
      valid := false;
    }
  }

  /** The number of checks that failed. */
  function FailedChecks(c: Config, host: set<string>, loads: string -> Option<Json>): nat
  {
    (if InterfaceCheck("sgi", c.sgi, SGI_RENAMED, host).ok then 0 else 1)
    + (if InterfaceCheck("s1", c.s1, S1_RENAMED, host).ok then 0 else 1)
    + (if SgiAcceptable(c) then 0 else 1)
    + (if S1Acceptable(c) then 0 else 1)
    + (if AreValidDns(loads, c.dns) then 0 else 1)
  }

  /** With networking configured, validation logs one warning per failing check, so at
      most five, and with networking skipped it logs none. */
  lemma OneWarningPerFailedCheck(c: Config, host: set<string>, loads: string -> Option<Json>)
    ensures c.skipNetworking ==> Diagnostics(c, host, loads) == []
    ensures !c.skipNetworking ==> |Diagnostics(c, host, loads)| == FailedChecks(c, host, loads)
    ensures |Diagnostics(c, host, loads)| <= 5
  {
  }

  /** Neither interface configured: the first two warnings name both options. */
  lemma MissingInterfacesReported(c: Config, host: set<string>, loads: string -> Option<Json>)
    requires !c.skipNetworking && !Truthy(c.sgi) && !Truthy(c.s1)
    ensures |Diagnostics(c, host, loads)| >= 2
    ensures Diagnostics(c, host, loads)[0] == NameRequired("sgi")
    ensures Diagnostics(c, host, loads)[1] == NameRequired("s1")
  {
    var front := InterfaceCheck("sgi", c.sgi, SGI_RENAMED, host).log
                 + InterfaceCheck("s1", c.s1, S1_RENAMED, host).log;
    assert front == [NameRequired("sgi"), NameRequired("s1")];
    assert Diagnostics(c, host, loads)[..2] == front;
  }

  /** Interfaces configured with names that do not exist, before or after renaming:
      the first two warnings name the configured values. */
  lemma UnknownInterfacesReported(c: Config, loads: string -> Option<Json>)
    requires !c.skipNetworking
    requires c.sgi == Some("nosuchinterface") && c.s1 == Some("bananaphone")
    ensures |Diagnostics(c, {"enp0s1", "enp0s2"}, loads)| >= 2
    ensures Diagnostics(c, {"enp0s1", "enp0s2"}, loads)[0] == NotFound("nosuchinterface")
    ensures Diagnostics(c, {"enp0s1", "enp0s2"}, loads)[1] == NotFound("bananaphone")
  {
    var host := {"enp0s1", "enp0s2"};
    var front := InterfaceCheck("sgi", c.sgi, SGI_RENAMED, host).log
                 + InterfaceCheck("s1", c.s1, S1_RENAMED, host).log;
    assert front == [NotFound("nosuchinterface"), NotFound("bananaphone")];
    assert Diagnostics(c, host, loads)[..2] == front;
  }
}
