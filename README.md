# IP owner checker: a Dafny model of the batch lookup core

The program reads a text file of IP addresses, one per line. For each address it looks up the reverse-DNS name and the RDAP registry data: network owner, ASN description and country code. It writes one CSV row per address to `sonuclar_<YYYYMMDD_HHMMSS>.csv`, placed next to the input file.

This project models the deterministic parts of that program (`autoencoder.py`) and proves properties about them:

- **Address list** (`address_list.dfy`, `pystr.dfy`): every line is stripped with Python's `str.strip()`. Lines that are empty afterwards are dropped, and the rest keep their file order. `PyStr` models `str.strip()` as CPython computes it:
  - a left index passes over whitespace;
  - a right index passes back over whitespace without crossing the left one;
  - whitespace is exactly the set of characters for which `str.isspace()` is true.
- **Record of one address** (`ip_info.dfy`): `get_ip_info` starts from `"Unknown"` defaults and overwrites fields from two lookups.
  - Each network call is given as an outcome, `Found(value)` or `Failed`, where `Failed` stands for any exception it raised.
  - The RDAP answer's keys are each `Absent`, `Null` or `Present(value)`, as in the JSON dictionary the library returns.
  - If `network` is present but null, `.get('name')` on line 38 raises. Then only `Owner` changes, to `"Error/Private IP"`; `ASN` and `Country` keep `"Unknown"`.
  - When the RDAP step does not raise, a missing or null key gives `None`, not `"Unknown"`.
- **Batch** (`bulk_scan.dfy`): `executor.map` is modelled as an order-preserving map.
  - The outcomes of the lookups for position `i` are `dns(i)` and `rdap(i)`. Every call gets its own outcome, so the same address appearing twice may get two different outcomes.
  - `RunBulkScan` composes four steps: parsing, naming the output file, the batch, and writing.
- **Output** (`result_csv.dfy`, `posix_path.dfy`):
  - The writer emits the header row `IP, Country, Owner, ASN, Reverse_DNS`, then one row per record.
  - Each row's values are looked up by field name, as `csv.DictWriter` does, with `None` written as an empty cell.
  - The output path is `os.path.join(os.path.dirname(input), "sonuclar_" + timestamp + ".csv")`, with `posixpath` semantics.

Four points about the program's behaviour are worth stating outright:

- **Missing RDAP keys.** A key missing from an RDAP answer whose `network` is not null (one that does not make line 38 raise) yields `None`, not `"Unknown"`. The same holds for a `network` without a `name`. The CSV writer emits it as an empty cell (`MissingKeyGivesEmptyCell`).
- **No address validation.** The program never checks address syntax: `"not-an-ip"` goes to the lookups like any other address.
- **Fixed header.** The header row is `IP, Country, Owner, ASN, Reverse_DNS`.
- **Escaping.** The csv module quotes and escapes cells; that is not modelled (see below).

## Model

| member | source | states |
|---|---|---|
| `PyStr.IsSpace` | autoencoder.py:63 | the characters `str.isspace()` accepts: all ASCII whitespace is included, and no character of an IPv4 or IPv6 address is |
| `PyStr.Strip` | autoencoder.py:63 | the stripped line never begins or ends with whitespace and is no longer than the line |
| `PyStr.StripIsSlice` | autoencoder.py:63 | `strip()` returns a slice of the line with only whitespace outside it and none at its own ends |
| `PyStr.StripUnique` | autoencoder.py:63 | any slice surrounded only by whitespace and without whitespace at its ends is exactly what `strip()` returns (an independent definition of stripping) |
| `PyStr.StripIdempotent` | autoencoder.py:63 | stripping a stripped line changes nothing |
| `AddressList.StripAll` | autoencoder.py:63 | one stripped string per input line |
| `AddressList.NonEmpty` | autoencoder.py:63 | the filter keeps only non-empty entries, each taken from the input, and never lengthens the list |
| `AddressList.KeptPositions` | autoencoder.py:63 | the positions the filter keeps are valid positions of the input |
| `AddressList.KeptPositionsExact` | autoencoder.py:63 | the kept positions hold non-empty entries, increase strictly, and include every non-empty entry |
| `AddressList.NonEmptyAtKeptPositions` | autoencoder.py:63 | the filtered list is the input read at the kept positions, one entry per kept position |
| `AddressList.NonEmptyConcat` | autoencoder.py:63 | filtering distributes over concatenation |
| `AddressList.ParseAddresses` | autoencoder.py:63 | the address list is never longer than the line count |
| `AddressList.KeptLines` | autoencoder.py:63 | the kept line numbers are valid line numbers |
| `AddressList.ParseStable` | autoencoder.py:63 | every parsed address is non-empty and already stripped |
| `AddressList.KeptLinesExact` | autoencoder.py:63 | a line is kept exactly when it is not blank after stripping; kept lines are in increasing file order |
| `AddressList.ParseSelectsKeptLines` | autoencoder.py:63 | the parsed list holds the stripped text of exactly the kept lines, in file order |
| `AddressList.ParseConcat` | autoencoder.py:62-63 | parsing works line by line: two consecutive chunks of the file parse to the concatenation of their lists |
| `AddressList.ParseMembership` | autoencoder.py:63 | an address is in the list iff it is non-empty and some line strips to it |
| `AddressList.ParseExample` | autoencoder.py:62-63 | the lines `8.8.8.8`, blank, `  1.1.1.1  `, `not-an-ip` give exactly three addresses, trimmed, in that order |
| `AddressList.StripExampleLines` | autoencoder.py:63 | what `strip()` makes of each line of that example, trailing newline included |
| `AddressList.NonEmptyExample` | autoencoder.py:63 | the blank line of that example is the only one dropped |
| `IpInfo.Entry.Get` | autoencoder.py:38-40 | `dict.get` gives the value when the key is present and non-null, `None` otherwise |
| `IpInfo.RdapRaises` | autoencoder.py:33-42 | the RDAP step raises whenever the lookup fails; after a successful lookup it raises exactly when `network` is null, since `.get('name')` is then called on `None` |
| `IpInfo.NetworkName` | autoencoder.py:38 | a missing `network` gives owner `None`; a present one gives its `name` through `get` |
| `IpInfo.GetIpInfo` | autoencoder.py:13-45 | IP is the input address. Reverse_DNS is the hostname on success and `"No Reverse DNS"` on failure. When the RDAP step raises (a failed lookup, or a null `network`), Owner is `"Error/Private IP"` and ASN and Country stay `"Unknown"`. When the RDAP step does not raise, the three fields are copied verbatim from the answer |
| `IpInfo.LookupsIndependent` | autoencoder.py:15-43 | the RDAP outcome never changes Reverse_DNS; the DNS outcome never changes Owner, ASN or Country |
| `IpInfo.ReverseDnsDefaultOverwritten` | autoencoder.py:20-30 | Reverse_DNS reads `"Unknown"` only if the resolver returned that very name: the default never survives |
| `IpInfo.OwnerDefaultOverwritten` | autoencoder.py:18-43 | Owner reads `"Unknown"` only if the registry sent that name. It reads `"Error/Private IP"` exactly when the RDAP step raised or the registry sent that text |
| `IpInfo.RdapSuccessOverwritesDefaults` | autoencoder.py:17-40 | after an RDAP answer whose `network` is not null (one that does not make line 38 raise), ASN and Country are `"Unknown"` only if the registry sent that text, and `None` exactly when the key is missing or null |
| `PosixPath.SlashEnd` | autoencoder.py:66 | the position after the last separator; no separator follows it |
| `PosixPath.RStripSlashes` | autoencoder.py:66 | removes exactly the trailing separators |
| `PosixPath.Dirname` | autoencoder.py:66 | `dirname` gives the path up to its last separator, less the separators that end it. A path with no separator gives `""`. A head that is nothing but separators is kept whole |
| `PosixPath.Basename` | autoencoder.py:66 | `basename` gives the suffix after the last separator, which holds no separator |
| `PosixPath.Join` | autoencoder.py:66 | `join` ends with its second component, and an absolute second component replaces the first. A relative one follows the first, with exactly one separator added when the first is non-empty and does not already end in one, and none otherwise |
| `PosixPath.SlashEndAppend` | autoencoder.py:66 | appending separator-free text does not move the last separator |
| `PosixPath.OutputFileName` | autoencoder.py:66 | the file name is `sonuclar_`, then the timestamp, then `.csv`, so the timestamp can be read back from it |
| `PosixPath.OutputPath` | autoencoder.py:66 | the output path starts with the input's directory and ends with the timestamped file name |
| `PosixPath.JoinNameSplit` | autoencoder.py:66 | joining a directory and a separator-free name puts the last separator just before the name; the text before it is the directory, with a separator added if it did not end in one |
| `PosixPath.OutputFileNameHasNoSep` | autoencoder.py:65-66 | the file name `sonuclar_<timestamp>.csv` holds no separator when the timestamp holds none |
| `PosixPath.OutputBesideInput` | autoencoder.py:65-66 | the output path's directory is the input file's directory, and its base name is `sonuclar_<timestamp>.csv` |
| `ResultCsv.Field` | autoencoder.py:79-81 | `rowdict.get(key, restval)`: IP and Reverse_DNS always give their string; a key outside the record would give the empty `restval`, though `Row` asks only for the five field names |
| `ResultCsv.CellText` | autoencoder.py:81 | `None` is written as an empty cell, a string as itself |
| `ResultCsv.Row` | autoencoder.py:78-81 | a row looks up the record by field name, which yields IP, Country, Owner, ASN, Reverse_DNS in that order |
| `ResultCsv.WriteResults` | autoencoder.py:77-81 | the output is the header row `IP, Country, Owner, ASN, Reverse_DNS`, then one row per record in order, so it has one row more than there are records |
| `ResultCsv.MissingKeyGivesEmptyCell` | autoencoder.py:38-40 | for an RDAP answer whose `network` is not null (one that does not make line 38 raise), a missing Country or ASN key shows as an empty cell, not `"Unknown"`. So does a missing `network`, or a `network` whose `name` is missing or null, in the Owner column |
| `BulkScan.LookupAll` | autoencoder.py:74 | exactly one record per address, at the same position, built from that position's outcomes |
| `BulkScan.RowsFollowAddressOrder` | autoencoder.py:74-81 | the first cell of result row `i` is address `i` |
| `BulkScan.FailedLookupRow` | autoencoder.py:24-43 | a failed reverse lookup shows `No Reverse DNS`. A failed RDAP step shows `Unknown`, `Error/Private IP`, `Unknown` in the Country, Owner and ASN columns, whatever the other lookup returned |
| `BulkScan.RunBulkScan` | autoencoder.py:59-81 | the output path is the timestamped name in the input's directory. The reported count is the number of non-blank lines. The rows are the header, then one row per parsed address in input order |

## Left out

- The tkinter window, button, labels, file dialog and message boxes (lines 1-2, 47-57, 83-110). Also left out are the callbacks scheduled with `root.after` and `os.startfile`: all of these are user interface.
- The background thread and the pool of 50 worker threads (lines 57, 72). Only the order-preserving result of `executor.map` is modelled; there is no model of the concurrency ceiling.
- `socket.gethostbyaddr` and `IPWhois(...).lookup_rdap` (lines 27, 34-36) are foreign network calls. Their results come in as outcome values, and `Failed` covers every exception type alike.
- The process-wide `socket.setdefaulttimeout(2)` (line 26) is left out, since it only affects timing.
- RDAP answers whose `network` entry is neither null nor a dictionary, and non-string values for `name`, `asn_description` or `asn_country_code`, are not modelled: the registry library does not produce them.
- Reading the input file is left out: opening it, decoding its text and splitting it into lines (line 62). The model starts from the sequence of lines, each with its line terminator.
- Opening and writing the output file (line 77), and the error path that reports any exception in a message box (lines 92-94), are left out.
- The csv module's quoting, escaping and line terminators (lines 79-81) are left out; rows are lists of cell texts.
- `datetime.now().strftime(...)` (line 65) reads the wall clock. The formatted timestamp is a parameter.
- Paths follow `posixpath`. On Windows, `os.path` is `ntpath`, which also treats `\` as a separator and handles drive letters; that is not modelled.

