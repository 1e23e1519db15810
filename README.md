# Magma Access Gateway charm: configuration checks, install arguments and secrets

This project models the decision logic of the Magma Access Gateway operator charm
(`src/charm.py`) and proves properties of that model in Dafny. It covers four parts.

**Configuration validation.** Five checks run in a fixed order:
- the sgi and s1 interface checks;
- the sgi and s1 addressing ladders, whose address and gateway validators rest on a
  string-level model of Python's `ipaddress` parsing;
- the DNS list check.

Every check runs, whatever the earlier ones found. The result is a verdict together
with the warnings logged, in order.

**The installer's argument vector** (`_install_arguments`).

**The secrets** (`_get_magma_secrets`), read from the output of
`show_gateway_info.py`.

**The action that reports the secrets** (`_on_get_access_gateway_secrets`).

The files, by module:

| file | module | contents |
|---|---|---|
| `wrappers.dfy` | `Wrappers` | `Option`, `Result` |
| `text.dfy` | `Text` | `str.split` and `str.join` on one separator, decimal and hexadecimal numerals |
| `ipaddress.dfy` | `Ipaddress` | `IPv4Address`, `IPv6Address`, `IPv4Network`, `IPv6Network`, `ip_address`, `ip_network(strict=False)` on strings |
| `address_validators.dfy` | `AddressValidators` | the four address and gateway validators |
| `dns.dfy` | `Json`, `Dns` | decoded JSON values, `_are_valid_dns` |
| `charm_config.dfy` | `CharmConfig` | the configuration snapshot and its option names |
| `validation.dfy` | `Validation` | interface check, the two addressing ladders, `_is_configuration_valid` |
| `install_arguments.dfy` | `InstallArguments` | `_install_arguments` |
| `gateway_secrets.dfy` | `GatewaySecrets` | `_get_magma_secrets`, the secrets action |
| `scenarios.dfy` | `Scenarios` | the configurations and script outputs of `tests/unit/test_charm.py`, checked against the model |

Several things from outside Dafny are parameters.

**The host's interfaces.** `netifaces.interfaces()` becomes the parameter
`host: set<string>`.

**The JSON decoder.** `json.loads` becomes the parameter
`loads: string -> Option<Json>`. `None` stands for `JSONDecodeError`.

**Whether Magma runs.** `systemctl is-active magma@magmad` becomes the boolean
`running`.

**The script's output.** The decoded output of `show_gateway_info.py` becomes the
parameter `output: Option<string>`, with `None` when the script fails.

**The configuration.** `self.model.config` is the record `CharmConfig.Config`:
- `skip-networking` and `dns` are always present, because they have defaults.
- The eight other options are `Option<string>`.
- `order` lists the present options in dictionary order.
- An empty value counts as unset wherever the source tests truthiness: `config.get(...)`
  followed by `not`, `any` or `all`.

Behaviours of the source worth noting:
- **The s1 ladder checks no gateways and no pairing.** `Validation.GatewayAsymmetry`
  states this.
- **The builder passes every present option on verbatim, empty values included.** It
  does so because it iterates `config.items()`. `InstallArguments.PresentOptionPassedOnce`
  states this.
- **The action reports the Challenge key under the key `challange-key`,** spelled that
  way (src/charm.py:89).

## Model

| member | source | states |
|---|---|---|
| CharmConfig.KeyNamesDistinct | src/charm.py:376-382 | the eight option names are pairwise distinct and differ from `skip-networking` and `dns` |
| Validation.InterfaceCheck | src/charm.py:224-249 | passes iff the option is set to a non-empty name and that name or the renamed one is on the host; fails with exactly "<key> interface name is required" when unset and "<value> interface not found" when neither name exists; at most one warning, none on success |
| Validation.RenamedInterfaceSuffices | src/charm.py:243-246 | any non-empty configured name passes, without a warning, once the renamed interface exists |
| Validation.FirstFailure | src/charm.py:258-281 | a ladder of rules passes iff no rule fails; otherwise its single warning is the message of the first failing rule, and every earlier rule passed |
| Validation.SevenRungs | src/charm.py:260-281 | a seven-rule ladder is the nested if/return chain of the source |
| Validation.SgiAddressingCheck | src/charm.py:252-281 | passes iff both IPv4 settings or neither are set, both IPv6 settings or neither, IPv6 only next to IPv4, and every set value passes its validator; at most one warning, none on success |
| Validation.SgiFirstFailure | src/charm.py:258-281 | the sgi check equals the ladder of its seven rules in the source's order (pairing v4, pairing v6, pure IPv6, v4 address, v4 gateway, v6 address, v6 gateway); the early return for nothing set agrees with it |
| Validation.S1AddressingCheck | src/charm.py:284-299 | passes iff IPv6 is set only next to IPv4 and each set address passes its validator; gateways are never consulted; at most one warning |
| Validation.S1FirstFailure | src/charm.py:288-299 | the s1 check equals the ladder of its three rules in the source's order |
| Validation.GatewayAsymmetry | src/charm.py:260-262 | a valid IPv4 address without a gateway is refused on sgi with the pairing warning and accepted on s1 |
| Validation.DnsLog | src/charm.py:190-192 | the DNS check logs "Invalid DNS configuration" exactly when the DNS list is refused |
| Validation.IsConfigurationValid | src/charm.py:179-193 | the warnings are those of the sgi interface, s1 interface, sgi addressing, s1 addressing and DNS checks in that order, each check running whatever the others found; valid iff networking is skipped or all five pass, iff no warning was logged |
| Validation.OneWarningPerFailedCheck | src/charm.py:181-193 | skipping networking logs nothing; otherwise exactly one warning per failing check, so at most five |
| Validation.MissingInterfacesReported | src/charm.py:183-185 | with neither interface set, the first two warnings name "sgi" and "s1" |
| Validation.UnknownInterfacesReported | tests/unit/test_charm.py:93-107 | interfaces named "nosuchinterface" and "bananaphone" on a host with enp0s1 and enp0s2: the first two warnings name those values |
| AddressValidators.IsValidIpv4Address | src/charm.py:302-312 | an accepted IPv4 address carries a `/` prefix (a bare address gets prefix 32 and is refused) |
| AddressValidators.IsValidIpv4Gateway | src/charm.py:315-325 | an accepted IPv4 gateway has neither a prefix nor a colon |
| AddressValidators.IsValidIpv6Address | src/charm.py:328-339 | an accepted IPv6 address carries a `/` prefix (a bare address gets prefix 128 and is refused) |
| AddressValidators.IsValidIpv6Gateway | src/charm.py:342-352 | an accepted IPv6 gateway has a colon and no prefix |
| AddressValidators.Ipv4CidrValidity | src/charm.py:302-312 | "a.b.c.d/p" is an accepted IPv4 address iff p < 32, and is never an IPv6 address nor a gateway of either family |
| AddressValidators.Ipv4GatewayValidity | src/charm.py:315-325 | "a.b.c.d" is an accepted IPv4 gateway, not an IPv6 gateway, and not an address with netmask of either family |
| AddressValidators.Ipv6CidrValidity | src/charm.py:328-339 | the full IPv6 text form with "/p" is an accepted IPv6 address iff p < 128, and never an IPv4 address |
| AddressValidators.Ipv6GatewayValidity | src/charm.py:342-352 | the full IPv6 text form is an accepted IPv6 gateway, not an IPv4 gateway, and not an IPv6 address with netmask |
| AddressValidators.NeitherDotNorColonRejected | src/charm.py:307-352 | a text with neither a dot nor a colon parses as no address and no network, so all four validators refuse it without raising |
| AddressValidators.SplitAtSlash | src/charm.py:309 | "a/b" with no other slash is split by `ip_network` into the address a and the mask b |
| Ipaddress.IpAddress | src/charm.py:322 | `ip_address` succeeds iff the text is an IPv4 or an IPv6 address, trying IPv4 first |
| Ipaddress.IpNetwork | src/charm.py:309 | `ip_network` takes the IPv4 reading when there is one, the IPv6 one otherwise |
| Ipaddress.Ipv4RoundTrip | src/charm.py:322 | the dotted-decimal text of four octets parses back to those octets |
| Ipaddress.OctetRoundTrip | src/charm.py:322 | the decimal text of a number up to 255 parses back to it as an octet |
| Ipaddress.Ipv6FullFormParses | src/charm.py:349 | eight groups of one to four hex digits joined by colons parse as an IPv6 address and not as an IPv4 one |
| Ipaddress.BareNetworkFullPrefix | src/charm.py:309-310 | a network text without `/` gets the full prefix length of its family |
| Ipaddress.NoDotNoIpv4 | src/charm.py:322 | a text without a dot is no IPv4 address |
| Ipaddress.NoColonNoIpv6 | src/charm.py:349 | a text without a colon is no IPv6 address |
| Text.JoinSplit | src/charm.py:406 | joining the pieces of `s.split(sep)` gives back s |
| Text.SplitJoin | src/charm.py:406 | splitting a join of separator-free pieces gives back the pieces |
| Text.DecimalRoundTrip | src/charm.py:309 | the decimal text of a number (a prefix length or octet) reads back as that number |
| Dns.AllIpAddresses | src/charm.py:361-362 | the comprehension over the list completes iff every element is an IP address |
| Dns.AreValidDns | src/charm.py:355-367 | accepted iff the text decodes to a non-empty JSON array every element of which is an IP address |
| InstallArguments.FlagInjective | src/charm.py:381-382 | distinct options get distinct flags, none of them "--skip-networking" or "--dns" |
| InstallArguments.StringItems | src/charm.py:380 | the strings of a list are defined iff every element is a string, and are then those elements in order |
| InstallArguments.Extension | src/charm.py:380 | `extend` of a decoded list of strings appends its elements, of a string its characters, of an object its keys; any other value raises; a list holding a non-string gives `None` (see Left out) |
| InstallArguments.FlagPairs | src/charm.py:381-382 | the option part has two entries per present option |
| InstallArguments.FlagPairsLayout | src/charm.py:381-382 | entry 2i of the option part is the flag of the i-th option and entry 2i+1 its value |
| InstallArguments.AppendFlagPairs | src/charm.py:381-382 | the loop appends, to what was built so far, the flag and value of every listed option in order |
| InstallArguments.BuildInstallArguments | src/charm.py:370-383 | the method returns exactly the argument vector `Arguments` describes |
| InstallArguments.SkipNetworkingArguments | src/charm.py:377-378 | with networking skipped the vector is exactly ["--skip-networking"] |
| InstallArguments.ConfiguredArguments | src/charm.py:379-383 | otherwise "--dns" comes first, then the servers in list order, then the option part |
| InstallArguments.NonStringServerNoVector | src/charm.py:380 | a decoded DNS list holding a non-string gives no argument vector in the model |
| InstallArguments.OptionFlags | src/charm.py:376-382 | the option part holds the flag and value of each present option in configuration order; "--dns", "--skip-networking" and the flags of absent options never occur in it |
| InstallArguments.PresentOptionPassedOnce | src/charm.py:381-382 | every present option, even an empty one, is passed exactly once with its value |
| GatewaySecrets.FilterMembers | src/charm.py:407-408 | a line survives the first filter iff it is not empty, the second iff it does not start with "-" |
| GatewaySecrets.NonEmptyConcat | src/charm.py:407 | filtering a concatenation filters each part |
| GatewaySecrets.DropRulesConcat | src/charm.py:408 | filtering a concatenation filters each part |
| GatewaySecrets.FiltersKeepAll | src/charm.py:407-408 | a filter keeps every line when it drops none |
| GatewaySecrets.FiltersIdempotent | src/charm.py:407-408 | filtering twice keeps what filtering once kept |
| GatewaySecrets.IndexOf | src/charm.py:409-410 | `list.index` finds the first occurrence, and fails iff the heading is absent |
| GatewaySecrets.ValueAfter | src/charm.py:409-410 | the value is the line after the first occurrence of the heading; the heading missing is `ValueError`, the heading as last line is `IndexError` |
| GatewaySecrets.Secrets | src/charm.py:406-411 | both secrets are found iff each heading has a line after it in the filtered lines; the Hardware ID is looked up first, so its error wins |
| GatewaySecrets.FilterNonEmpty | src/charm.py:407 | the loop keeps exactly the non-empty lines, in order |
| GatewaySecrets.FilterRules | src/charm.py:408 | the loop keeps exactly the lines that do not start with "-", in order |
| GatewaySecrets.GetMagmaSecrets | src/charm.py:406-411 | splitting, the two filters and the two lookups give exactly `Secrets` |
| GatewaySecrets.SecretsAction | src/charm.py:75-97 | fails with "Magma is not running! ..." when Magma is down; with "Failed to get Magma Access Gateway secrets!" when the script fails or a secret is missing; otherwise returns exactly the keys "hardware-id" and "challange-key" with the two secrets |
| Scenarios.BlankSeparated | tests/unit/test_charm.py:750-757 | two blocks of non-empty lines, each followed by an empty line, filter to the two blocks |
| Scenarios.RuleSeparated | tests/unit/test_charm.py:750-757 | underlines between runs of other lines are dropped |
| Scenarios.GatewayInfoLines | tests/unit/test_charm.py:750-757 | the test's script output filters to the two headings, each followed by its value |
| Scenarios.GatewayInfoSecrets | tests/unit/test_charm.py:740-765 | the secrets are "1234-abc-5678" and "whatever", which the action returns under "hardware-id" and "challange-key" |
| Scenarios.SecretsNeedMagma | tests/unit/test_charm.py:767-781 | with Magma down the action fails with the not-running message, whatever the script prints |
| Scenarios.EmptyGatewayInfo | tests/unit/test_charm.py:783-798 | an empty output lacks the Hardware ID heading, and the action fails |
| Scenarios.GatewayInfoWithoutValues | tests/unit/test_charm.py:800-821 | headings without values: the Hardware ID is read as "Challenge key", the Challenge key heading is last, and the action fails |
| Scenarios.Ipv4AddressExample | tests/unit/test_charm.py:583-587 | "10.0.0.2/24" and "10.1.0.2/24" are accepted IPv4 addresses |
| Scenarios.Ipv4BareAddressRefused | tests/unit/test_charm.py:263-285 | the bare "10.0.0.2" is refused as an address |
| Scenarios.Ipv4GatewayExample | tests/unit/test_charm.py:584 | "10.0.0.1" is an accepted IPv4 gateway |
| Scenarios.Ipv6AddressExample | tests/unit/test_charm.py:585-588 | "2001:0db8:85a3:0000:0000:8a2e:0370:7334/64" and its 2002 twin are accepted IPv6 addresses |
| Scenarios.Ipv6GatewayExample | tests/unit/test_charm.py:586 | "2001:0db8:85a3:0000:0000:8a2e:0370:7331" is an accepted IPv6 gateway |
| Scenarios.Ipv6BareAddressRefused | tests/unit/test_charm.py:347-375 | "2001:0db8:85a3:0000:0000:8a2e:0370:7332" without netmask is refused as an address |
| Scenarios.GarbageRefused | tests/unit/test_charm.py:245-474 | "invalidip", "not a gateway" and "not ipv6" are refused by all four validators |
| Scenarios.DefaultDnsAccepted | tests/unit/test_charm.py:603-605 | the servers "8.8.8.8" and "208.67.222.222" form an accepted DNS list |
| Scenarios.NumericDnsAccepted | src/charm.py:355-383 | `[134744072]` and `[true]` pass the DNS check, because `ip_address` reads integers, yet give no argument vector in the model |
| Scenarios.HostNameIsNoAddress | tests/unit/test_charm.py:541-562 | "dns1.example.com" is no IP address |
| Scenarios.InvalidDnsRefused | tests/unit/test_charm.py:491-562 | undecodable text, a decoded object and a list holding a host name are refused |
| Scenarios.IncompleteAddressingRefused | tests/unit/test_charm.py:111-432 | half an IPv4 pair, half an IPv6 pair and IPv6 alone are refused on sgi with their own warnings, and IPv6 alone on s1 |
| Scenarios.SgiIpv6Verdict | src/charm.py:275-281 | with both IPv4 settings valid and both IPv6 settings set, the IPv6 address is judged before the IPv6 gateway |
| Scenarios.S1Ipv6Verdict | src/charm.py:293-299 | with a valid s1 IPv4 address, the s1 verdict is that of the IPv6 address |
| Scenarios.SgiInvalidIpv4Address | tests/unit/test_charm.py:237-285 | "invalidip" or the bare "10.0.0.2" next to a valid gateway gives the invalid-IPv4-address warning |
| Scenarios.SgiInvalidIpv4Gateway | tests/unit/test_charm.py:289-311 | "not a gateway" next to a valid address gives the invalid-IPv4-gateway warning |
| Scenarios.SgiInvalidIpv6Address | tests/unit/test_charm.py:315-343 | "not ipv6" as the IPv6 address gives the invalid-IPv6-address warning |
| Scenarios.SgiIpv6MissingNetmask | tests/unit/test_charm.py:347-375 | an IPv6 address without netmask gives the invalid-IPv6-address warning |
| Scenarios.SgiInvalidIpv6Gateway | tests/unit/test_charm.py:379-407 | "not a gateway" as the IPv6 gateway gives the invalid-IPv6-gateway warning |
| Scenarios.S1InvalidIpv4Address | tests/unit/test_charm.py:436-457 | "invalidip" as the s1 address gives the s1 invalid-IPv4-address warning, with no gateway configured |
| Scenarios.S1InvalidIpv6Address | tests/unit/test_charm.py:461-487 | "not ipv6" next to a valid s1 IPv4 address gives the s1 invalid-IPv6-address warning |
| Scenarios.FullAddressingAccepted | tests/unit/test_charm.py:579-590 | both ladders accept the complete configuration of the installation test |
| Scenarios.FullConfigurationWellFormed | tests/unit/test_charm.py:579-590 | that configuration lists each of its eight options once |
| Scenarios.FullConfigurationValid | tests/unit/test_charm.py:579-591 | with both interfaces present and the default servers, that configuration passes validation without a warning |
| Scenarios.TwoServerArguments | src/charm.py:379-383 | with two servers listed, they follow "--dns" and precede the option part |
| Scenarios.FullOptionPairs | tests/unit/test_charm.py:606-621 | the option part of that configuration is the flag and value of each option in the order set |
| Scenarios.FullConfigurationArguments | tests/unit/test_charm.py:603-621 | the installer receives "--dns", the two servers, then the eight options with their values in that order |

## Left out

- Subprocess and snap plumbing is not modelled: the snap installation, the install and
  configure commands, `systemctl`, `show_gateway_info.py` and the post-install checks. Their
  outcomes enter only as the parameters `running` and `output`.
- The event handlers and status bookkeeping (`_on_install`, `_on_start`, `_on_post_install_checks_action`)
  are framework glue. The secrets action is kept only as the result it sets or the message it fails with.
- `netifaces.interfaces()` is the parameter `host`.
- Logging is modelled as the returned sequence of messages. Message arguments are
  formatted as the source's `%s` formats them.
- `json.loads` is the parameter `loads`. JSON text itself is not parsed.
- `bytes.decode()` of the script's output is not modelled. The output enters as text.
- `_is_valid_domain` and `_is_valid_rootca_pem_path` are not used by the checks modelled here.
  The second one asks the filesystem.
- Ipaddress.Network: with `strict=False`, Python clears the host bits of a network's address. The
  model keeps the address as written, because the validators read only the family and
  the prefix length.
- Ipaddress: the behaviour of Python 3.9.5 and later is modelled. Octets with a leading zero are
  refused, and an IPv6 address may carry a `%scope` suffix. Python versions before
  3.9.5 treated leading zeros differently.
- SecretsAction: the source's catch-all `except Exception` branch reports `str(e)`. Only
  `CalledProcessError`, `IndexError` and `ValueError` can arise from the modelled code, so
  that branch is not modelled.
- InstallArguments.Extension: a DNS list that passes the check but holds an integer or a
  boolean (`[134744072]`, `[true]`) gives `None` here. Python's `extend` builds a list
  holding that value, and only the installer call then rejects it with a `TypeError`.
  The model's argument vector holds strings only, so it stops one step earlier.
- Dns.IsIpAddressValue: for a decoded element that is not a string, `ip_address` is modelled by
  the element's kind:
  - an integer below 2^128 is an address;
  - a boolean is the integer 0 or 1;
  - null, a float, a list or an object is not an address.
- Expectations of the unit tests that `src/charm.py` does not have are not modelled:
  - `--no-reboot` and the reboot;
  - the `is-enabled` pre-check;
  - relations, `install_file` and `block-agw-local-ips`;
  - the result key `challenge-key`. The code sets `challange-key`, and the model follows the code.
