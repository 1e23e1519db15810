/** The charm's configuration as the validators and the argument builder read it
    (`self.model.config`).  The options `skip-networking` and `dns` have defaults
    and are always present; the other eight are present only when set. */
module CharmConfig {
  import opened Wrappers

  /** The optional string options. */
  datatype Key =
    | Sgi | S1
    | SgiIpv4Address | SgiIpv4Gateway | SgiIpv6Address | SgiIpv6Gateway
    | S1Ipv4Address | S1Ipv6Address

  /** The option name under which a key is stored and passed on as a flag. */
  function KeyName(k: Key): string
  {
    match k
    case Sgi => "sgi"
    case S1 => "s1"
    case SgiIpv4Address => "sgi-ipv4-address"
    case SgiIpv4Gateway => "sgi-ipv4-gateway"
    case SgiIpv6Address => "sgi-ipv6-address"
    case SgiIpv6Gateway => "sgi-ipv6-gateway"
    case S1Ipv4Address => "s1-ipv4-address"
    case S1Ipv6Address => "s1-ipv6-address"
  }

  /** The two options that are always present. */
  const SKIP_NETWORKING: string := "skip-networking"
  const DNS: string := "dns"

  /** Distinct keys have distinct names, and no key is named like one of the two
      options that are always present. */
  lemma KeyNamesDistinct(k: Key, k': Key)
    ensures KeyName(k) == KeyName(k') ==> k == k'
    ensures KeyName(k) != SKIP_NETWORKING && KeyName(k) != DNS
  {
  }

  /** One snapshot of the configuration.  `order` lists the keys of the present
      optional options in the dictionary's iteration order. */
  datatype Config = Config(
    skipNetworking: bool,
    dns: string,
    sgi: Option<string>,
    s1: Option<string>,
    sgiIpv4Address: Option<string>,
    sgiIpv4Gateway: Option<string>,
    sgiIpv6Address: Option<string>,
    sgiIpv6Gateway: Option<string>,
    s1Ipv4Address: Option<string>,
    s1Ipv6Address: Option<string>,
    order: seq<Key>)

  /** `config.get(KeyName(k))`. */
  function Get(c: Config, k: Key): Option<string>
  {
    match k
    case Sgi => c.sgi
    case S1 => c.s1
    case SgiIpv4Address => c.sgiIpv4Address
    case SgiIpv4Gateway => c.sgiIpv4Gateway
    case SgiIpv6Address => c.sgiIpv6Address
    case SgiIpv6Gateway => c.sgiIpv6Gateway
    case S1Ipv4Address => c.s1Ipv4Address
    case S1Ipv6Address => c.s1Ipv6Address
  }

  /** A dictionary lists each present key exactly once and no other. */
  predicate WellFormed(c: Config)
  {
    && (forall i, j :: 0 <= i < j < |c.order| ==> c.order[i] != c.order[j])
    && (forall k :: Get(c, k).Some? <==> k in c.order)
  }

  /** Python truthiness of `config.get(...)`: absent and empty are both false. */
  predicate Truthy(v: Option<string>)
  {
    v.Some? && v.value != ""
  }
}
