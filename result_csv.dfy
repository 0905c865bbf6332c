/**
 * Writing the results (autoencoder.py lines 77-81): a `csv.DictWriter`
 * with a fixed list of field names writes a header row and then one row
 * per record, each row listing the record's values in field-name order.
 * Rows are given here as lists of cell texts; quoting and line endings are
 * the csv module's business and are not modelled.
 */
module ResultCsv {
  import opened IpInfo

  /** The `fieldnames` of the writer, which fix the column order. */
  const FieldNames: seq<string> := ["IP", "Country", "Owner", "ASN", "Reverse_DNS"]

  /**
   * `rowdict.get(key, restval)` on a record built by `GetIpInfo`; a key the
   * record lacks would give the writer's default `restval`, the empty string.
   * `Row` asks only for the five field names, all of which a record holds,
   * so it never reaches that case.
   */
  function Field(rec: IpRecord, key: string): (v: Option<string>)
    // a key outside the record gives `restval`
    ensures key !in FieldNames ==> v == Some("")
    // IP and Reverse_DNS always hold a string
    ensures key == "IP" ==> v == Some(rec.ip)
    ensures key == "Reverse_DNS" ==> v == Some(rec.reverseDns)
  {
    if key == "IP" then Some(rec.ip)
    else if key == "Country" then rec.country
    else if key == "Owner" then rec.owner
    else if key == "ASN" then rec.asn
    else if key == "Reverse_DNS" then Some(rec.reverseDns)
    else Some("")
  }

  /** The csv module writes `None` as an empty cell and a string as itself. */
  function CellText(v: Option<string>): (cell: string)
    ensures v.Some? ==> cell == v.value
    ensures v.None? ==> cell == ""
  {
    match v
    case None => ""
    case Some(s) => s
  }

  /**
   * The row `writerow` produces for one record: the values looked up by
   * field name, which puts them in the fixed column order.
   */
  function Row(rec: IpRecord): (row: seq<string>)
    ensures |row| == |FieldNames|
    ensures row == [rec.ip, CellText(rec.country), CellText(rec.owner), CellText(rec.asn), rec.reverseDns]
  {
    seq(|FieldNames|, i requires 0 <= i < |FieldNames| => CellText(Field(rec, FieldNames[i])))
  }

  /**
   * `writer.writeheader()` followed by `writer.writerows(records)`: the
   * header row, then one row per record in the order given.
   */
  method WriteResults(records: seq<IpRecord>) returns (rows: seq<seq<string>>)
    ensures |rows| == |records| + 1
    ensures rows[0] == ["IP", "Country", "Owner", "ASN", "Reverse_DNS"]
    ensures forall i :: 0 <= i < |records| ==> rows[i + 1] == Row(records[i])
  {
    rows := [FieldNames];
    var i := 0;
    while i < |records|
      invariant 0 <= i <= |records|
      invariant |rows| == i + 1 && rows[0] == FieldNames
      invariant forall k :: 0 <= k < i ==> rows[k + 1] == Row(records[k])
    {
      rows := rows + [Row(records[i])];
      i := i + 1;
    }
  }

  /**
   * When the RDAP answer does not make line 38 raise (its `network` is not
   * null), a key missing from it shows up as an empty cell, not as "Unknown".
   */
  lemma MissingKeyGivesEmptyCell(ip: string, dns: Lookup<string>, rdap: Lookup<RdapResult>)
    requires !RdapRaises(rdap)
    ensures !rdap.value.asnCountryCode.Present? ==> Row(GetIpInfo(ip, dns, rdap))[1] == ""
    ensures !rdap.value.asnDescription.Present? ==> Row(GetIpInfo(ip, dns, rdap))[3] == ""
    // a missing `network`, or a `network` whose `name` is missing or null
    ensures NetworkName(rdap.value.network) == None ==> Row(GetIpInfo(ip, dns, rdap))[2] == ""
  {
  }
}
