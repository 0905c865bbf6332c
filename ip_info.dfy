/**
 * Building the record of one address (`get_ip_info`, autoencoder.py lines
 * 13-45). The record starts from "Unknown" defaults and is then overwritten
 * by two independent lookups: reverse DNS and an RDAP query. Neither lookup is
 * performed here: each call's outcome is an input, either the value the
 * library returned or `Failed` for any exception it raised.
 */
module IpInfo {

  /** A Python value that may be `None`. */
  datatype Option<T> = None | Some(value: T)

  /** What one network call did: returned a value, or raised. */
  datatype Lookup<T> = Found(value: T) | Failed

  /** One key of a JSON-like dictionary: missing, present but null, or present. */
  datatype Entry<T> = Absent | Null | Present(value: T) {
    /** `d.get(key)`: the value, or `None` when the key is missing or null. */
    function Get(): (v: Option<T>)
      ensures v.Some? <==> Present?
      ensures Present? ==> v.value == value
    {
      if Present? then Some(value) else None
    }
  }

  /** The `network` object of an RDAP answer; only its `name` is read. */
  datatype Network = Network(name: Entry<string>)

  /** The keys of `lookup_rdap`'s result dictionary that the program reads. */
  datatype RdapResult = RdapResult(
    network: Entry<Network>,
    asnDescription: Entry<string>,
    asnCountryCode: Entry<string>)

  /**
   * The dictionary `data` built for one address; its keys are
   * "IP", "Country", "Owner", "ASN" and "Reverse_DNS".
   */
  datatype IpRecord = IpRecord(
    ip: string,
    country: Option<string>,
    owner: Option<string>,
    asn: Option<string>,
    reverseDns: string)

  const Unknown: string := "Unknown"
  const NoReverseDns: string := "No Reverse DNS"
  const ErrorPrivateIp: string := "Error/Private IP"

  /**
   * The RDAP step raises, either because the lookup itself failed or
   * because `results.get('network', {})` is `None` and `.get('name')` is
   * then called on it.
   */
  function RdapRaises(rdap: Lookup<RdapResult>): (raises: bool)
    // a failed lookup always raises; a successful one only when `network` is null
    ensures rdap.Failed? ==> raises
    ensures rdap.Found? ==> (raises <==> rdap.value.network.Null?)
  {
    rdap.Failed? || rdap.value.network.Null?
  }

  /** `results.get('network', {}).get('name')` when that does not raise. */
  function NetworkName(network: Entry<Network>): (name: Option<string>)
    requires !network.Null?
    ensures network.Absent? ==> name == None
    ensures network.Present? ==> name == network.value.name.Get()
  {
    match network
    case Absent => None              // `{}` has no 'name'
    case Present(net) => net.name.Get()
  }

  /**
   * `get_ip_info(ip)` with the outcomes of `gethostbyaddr(ip)` and of
   * `lookup_rdap` given. The dictionary is updated in the source's order:
   * defaults, then the reverse-DNS field, then the RDAP fields.
   */
  function GetIpInfo(ip: string, dns: Lookup<string>, rdap: Lookup<RdapResult>): (data: IpRecord)
    ensures data.ip == ip
    // reverse DNS: the hostname on success, the sentinel on any failure
    ensures dns.Found? ==> data.reverseDns == dns.value
    ensures dns.Failed? ==> data.reverseDns == NoReverseDns
    // RDAP failure: only Owner is set; Country and ASN keep their default
    ensures RdapRaises(rdap) ==>
      data.owner == Some(ErrorPrivateIp) && data.asn == Some(Unknown) && data.country == Some(Unknown)
    // RDAP success: the three fields are copied verbatim, a missing key giving None
    ensures !RdapRaises(rdap) ==>
      && data.owner == NetworkName(rdap.value.network)
      && data.asn == rdap.value.asnDescription.Get()
      && data.country == rdap.value.asnCountryCode.Get()
  {
    var data := IpRecord(ip, Some(Unknown), Some(Unknown), Some(Unknown), Unknown);
    var data := match dns
      case Found(hostname) => data.(reverseDns := hostname)
      case Failed => data.(reverseDns := NoReverseDns);
    var data := match rdap
      case Failed => data.(owner := Some(ErrorPrivateIp))
      case Found(results) =>
        if results.network.Null? then
          // line 38 raises before any field is assigned
          data.(owner := Some(ErrorPrivateIp))
        else
          data.(owner := NetworkName(results.network),
                asn := results.asnDescription.Get(),
                country := results.asnCountryCode.Get());
    data
  }

  /**
   * The two lookups touch disjoint fields: the RDAP outcome never changes
   * Reverse_DNS, the DNS outcome never changes Owner, ASN or Country.
   */
  lemma LookupsIndependent(ip: string, dns1: Lookup<string>, dns2: Lookup<string>,
                           rdap1: Lookup<RdapResult>, rdap2: Lookup<RdapResult>)
    ensures GetIpInfo(ip, dns1, rdap1).reverseDns == GetIpInfo(ip, dns1, rdap2).reverseDns
    ensures GetIpInfo(ip, dns1, rdap1).owner == GetIpInfo(ip, dns2, rdap1).owner
    ensures GetIpInfo(ip, dns1, rdap1).asn == GetIpInfo(ip, dns2, rdap1).asn
    ensures GetIpInfo(ip, dns1, rdap1).country == GetIpInfo(ip, dns2, rdap1).country
  {
  }

  /**
   * The "Unknown" default of Reverse_DNS never survives: the field reads
   * "Unknown" only when the resolver itself returned that name.
   */
  lemma ReverseDnsDefaultOverwritten(ip: string, dns: Lookup<string>, rdap: Lookup<RdapResult>)
    ensures GetIpInfo(ip, dns, rdap).reverseDns == Unknown <==> dns == Found(Unknown)
  {
  }

  /**
   * Owner keeps no default either: it reads "Unknown" only when the RDAP
   * answer's network name is literally "Unknown", and it reads the error
   * sentinel exactly when the RDAP step raised or the name is that text.
   */
  lemma OwnerDefaultOverwritten(ip: string, dns: Lookup<string>, rdap: Lookup<RdapResult>)
    ensures GetIpInfo(ip, dns, rdap).owner == Some(Unknown) <==>
      !RdapRaises(rdap) && rdap.value.network == Present(Network(Present(Unknown)))
    ensures GetIpInfo(ip, dns, rdap).owner == Some(ErrorPrivateIp) <==>
      RdapRaises(rdap) || rdap.value.network == Present(Network(Present(ErrorPrivateIp)))
  {
  }

  /**
   * A successful RDAP answer never leaves a "Unknown" default behind: ASN
   * and Country read "Unknown" only if the registry sent that text, and a
   * missing or null key gives None.
   */
  lemma RdapSuccessOverwritesDefaults(ip: string, dns: Lookup<string>, rdap: Lookup<RdapResult>)
    requires !RdapRaises(rdap)
    ensures GetIpInfo(ip, dns, rdap).asn == Some(Unknown) <==> rdap.value.asnDescription == Present(Unknown)
    ensures GetIpInfo(ip, dns, rdap).country == Some(Unknown) <==> rdap.value.asnCountryCode == Present(Unknown)
    ensures GetIpInfo(ip, dns, rdap).asn == None <==> !rdap.value.asnDescription.Present?
    ensures GetIpInfo(ip, dns, rdap).country == None <==> !rdap.value.asnCountryCode.Present?
  {
  }
}
