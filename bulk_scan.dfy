/**
 * The batch (`run_bulk_scan`, autoencoder.py lines 59-81, without the user
 * interface): read the address list, name the output file, look every
 * address up, and write the header and one row per address.
 *
 * The program runs the lookups on a pool of 50 threads through
 * `executor.map`, which hands back the results in the order of its input,
 * whatever the order in which they complete. The model keeps that
 * order-preserving map and leaves the threads out. The outcome of the
 * lookups for the address at position `i` is `dns(i)` and `rdap(i)`, so the
 * same address appearing twice may see two different outcomes, as it may
 * against a real network.
 */
module BulkScan {
  import opened AddressList
  import opened IpInfo
  import opened ResultCsv
  import opened PosixPath

  /** `list(executor.map(get_ip_info, ips))` */
  function LookupAll(ips: seq<string>, dns: nat -> Lookup<string>, rdap: nat -> Lookup<RdapResult>)
    : (results: seq<IpRecord>)
    ensures |results| == |ips|
    ensures forall i :: 0 <= i < |ips| ==> results[i] == GetIpInfo(ips[i], dns(i), rdap(i))
  {
    if ips == [] then []
    else
      var n := |ips| - 1;
      LookupAll(ips[..n], dns, rdap) + [GetIpInfo(ips[n], dns(n), rdap(n))]
  }

  /**
   * One run on an input file whose lines are `lines`, at the wall-clock
   * time `timestamp` (already formatted as `%Y%m%d_%H%M%S`). Returns the
   * output path, the rows written to it and the number of addresses
   * scanned that the program reports.
   */
  method RunBulkScan(filePath: string, lines: seq<string>, timestamp: string,
                     dns: nat -> Lookup<string>, rdap: nat -> Lookup<RdapResult>)
    returns (outputFile: string, rows: seq<seq<string>>, scanned: nat)
    // the output file sits next to the input, under the timestamped name (see OutputBesideInput)
    ensures outputFile == OutputPath(filePath, timestamp)
    // one row per non-blank line, after the header
    ensures scanned == |ParseAddresses(lines)| && scanned <= |lines|
    ensures |rows| == scanned + 1
    ensures rows[0] == ["IP", "Country", "Owner", "ASN", "Reverse_DNS"]
    ensures forall i :: 0 <= i < scanned ==>
      rows[i + 1] == Row(GetIpInfo(ParseAddresses(lines)[i], dns(i), rdap(i)))
  {
    var ipList := ParseAddresses(lines);
    outputFile := OutputPath(filePath, timestamp);
    var results := LookupAll(ipList, dns, rdap);
    rows := WriteResults(results);
    scanned := |ipList|;
    forall i | 0 <= i < scanned
      ensures rows[i + 1] == Row(GetIpInfo(ipList[i], dns(i), rdap(i)))
    {
      assert rows[i + 1] == Row(results[i]);
      assert results[i] == GetIpInfo(ipList[i], dns(i), rdap(i));
    }
  }

  /**
   * The row of an address whose lookups failed holds the sentinels of the
   * failed lookup, whatever the other lookup returned.
   */
  lemma FailedLookupRow(ip: string, dns: Lookup<string>, rdap: Lookup<RdapResult>)
    ensures dns.Failed? ==> Row(GetIpInfo(ip, dns, rdap))[4] == "No Reverse DNS"
    ensures RdapRaises(rdap) ==>
      Row(GetIpInfo(ip, dns, rdap))[1..4] == ["Unknown", "Error/Private IP", "Unknown"]
  {
  }

  /** The batch keeps the input order: row `i` of the results belongs to address `i`. */
  lemma RowsFollowAddressOrder(ips: seq<string>, dns: nat -> Lookup<string>, rdap: nat -> Lookup<RdapResult>)
    ensures forall i :: 0 <= i < |ips| ==> Row(LookupAll(ips, dns, rdap)[i])[0] == ips[i]
  {
  }
}
