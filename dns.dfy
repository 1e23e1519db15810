/** The values `json.loads` produces, as far as the charm looks at them. */
module Json {
  /** A decoded JSON value; an object keeps its members in the dictionary's
      insertion order. */
  datatype Json =
    | JNull
    | JBool(b: bool)
    | JInt(i: int)
    | JFloat(r: real)
    | JString(s: string)
    | JArray(items: seq<Json>)
    | JObject(members: seq<(string, Json)>)
}

/** The DNS list validator `_are_valid_dns` (src/charm.py). The decoder `json.loads`
    is not modelled: it is the parameter `loads`, `None` standing for
    `json.JSONDecodeError`. */
module Dns {
  import opened Wrappers
  import opened Json
  import opened Ipaddress

  /** 2 ** 128: `ip_address` takes an integer below it as an IPv4 or IPv6 address. */
  const IPV6_INT_LIMIT: int := 340282366920938463463374607431768211456

  /** `ipaddress.ip_address(v)` returns for a decoded element v, rather than raising
      `ValueError`.  An integer is an address by value and a boolean is the integer 0
      or 1; `str()` of null, a float, a list or an object never parses as an address. */
  predicate IsIpAddressValue(v: Json)
  {
    match v
    case JString(s) => IpAddress(s).Some?
    case JInt(i) => 0 <= i < IPV6_INT_LIMIT
    case JBool(_) => true
    case _ => false
  }

  /** The list comprehension `[ipaddress.ip_address(dns) for dns in list_of_dns]`
      completes without raising. */
  predicate AllIpAddresses(items: seq<Json>)
    ensures AllIpAddresses(items) <==> forall i :: 0 <= i < |items| ==> IsIpAddressValue(items[i])
  {
    if items == [] then true
    else IsIpAddressValue(items[0]) && AllIpAddresses(items[1..])
  }

  /** `_are_valid_dns(dns)`: `dns` decodes to a non-empty JSON array every element of
      which is an IP address; anything else (undecodable text, an object, an empty
      array, a host name) is refused. */
  predicate AreValidDns(loads: string -> Option<Json>, dns: string)
    ensures AreValidDns(loads, dns) <==>
      && loads(dns).Some?
      && loads(dns).value.JArray?
      && |loads(dns).value.items| > 0
      && forall i :: 0 <= i < |loads(dns).value.items| ==> IsIpAddressValue(loads(dns).value.items[i])
  {
    match loads(dns)
    case None => false
    case Some(JArray(items)) => items != [] && AllIpAddresses(items)
    case Some(_) => false
  }
}
