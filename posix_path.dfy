/**
 * Naming the output file (autoencoder.py lines 65-66): the result goes next
 * to the input file, as `sonuclar_<timestamp>.csv`. The path functions
 * follow Python's `posixpath` (`dirname`, `join`, `basename`), with '/' as
 * the only separator.
 */
module PosixPath {

  const Sep: char := '/'

  /** `p.rfind('/') + 1`: the position just after the last separator, or 0. */
  function SlashEnd(p: string): (i: nat)
    ensures i <= |p|
    ensures i > 0 ==> p[i - 1] == Sep
    ensures forall j :: i <= j < |p| ==> p[j] != Sep
  {
    if p == [] then 0
    else if p[|p| - 1] == Sep then |p|
    else SlashEnd(p[..|p| - 1])
  }

  /** Every character of `s` is a separator. */
  predicate AllSlashes(s: string) {
    forall i :: 0 <= i < |s| ==> s[i] == Sep
  }

  /** `s.rstrip('/')` */
  function RStripSlashes(s: string): (r: string)
    ensures |r| <= |s| && r == s[..|r|]
    ensures r == [] || r[|r| - 1] != Sep
    ensures forall i :: |r| <= i < |s| ==> s[i] == Sep
  {
    if s != [] && s[|s| - 1] == Sep then RStripSlashes(s[..|s| - 1]) else s
  }

  /** `os.path.dirname(p)` */
  function Dirname(p: string): (d: string)
    ensures |d| <= |p| && d == p[..|d|]
    ensures d != [] && d[|d| - 1] == Sep ==> AllSlashes(d)
    // the text up to the last separator, less the separators that end it,
    // unless it is nothing but separators
    ensures |d| <= SlashEnd(p)
    ensures forall i :: |d| <= i < SlashEnd(p) ==> p[i] == Sep
    ensures SlashEnd(p) > 0 ==> d != []
    ensures AllSlashes(d) ==> |d| == SlashEnd(p)
  {
    var head := p[..SlashEnd(p)];
    if head != [] && !AllSlashes(head) then RStripSlashes(head) else head
  }

  /** `os.path.basename(p)` */
  function Basename(p: string): (b: string)
    ensures Sep !in b
    ensures |b| <= |p| && p == p[..|p| - |b|] + b
    // the suffix starts right after the last separator
    ensures |b| < |p| ==> p[|p| - |b| - 1] == Sep
  {
    p[SlashEnd(p)..]
  }

  /** `os.path.join(a, b)` with one further component. */
  function Join(a: string, b: string): (p: string)
    ensures |b| <= |p| && p[|p| - |b|..] == b
    ensures b != [] && b[0] == Sep ==> p == b
    // a relative component goes after `a`, with exactly one separator between them
    ensures (b == [] || b[0] != Sep) ==> |a| <= |p| <= |a| + 1 + |b| && p[..|a|] == a
    ensures a != [] && b != [] && b[0] != Sep ==> |b| < |p| && p[|p| - |b| - 1] == Sep
    ensures a != [] && b != [] && b[0] != Sep && p[|a| - 1] == Sep ==> |p| == |a| + |b|
    ensures a != [] && a[|a| - 1] != Sep && (b == [] || b[0] != Sep) ==> |p| == |a| + 1 + |b|
    ensures a != [] && a[|a| - 1] != Sep && (b == [] || b[0] != Sep) ==> p[|a|] == Sep
    ensures (a == [] || a[|a| - 1] == Sep) && (b == [] || b[0] != Sep) ==> |p| == |a| + |b|
  {
    if b != [] && b[0] == Sep then b
    else if a == [] || a[|a| - 1] == Sep then a + b
    else a + [Sep] + b
  }

  /** `f"sonuclar_{timestamp}.csv"` */
  function OutputFileName(timestamp: string): (name: string)
    ensures |name| == |timestamp| + 13
    ensures name[..9] == "sonuclar_" && name[|name| - 4..] == ".csv"
    ensures name[9..|name| - 4] == timestamp
  {
    "sonuclar_" + timestamp + ".csv"
  }

  /** `os.path.join(os.path.dirname(filePath), f"sonuclar_{timestamp}.csv")` */
  function OutputPath(filePath: string, timestamp: string): (out: string)
    // the input's directory, then the timestamped file name
    ensures |Dirname(filePath)| + |OutputFileName(timestamp)| <= |out|
    ensures out[..|Dirname(filePath)|] == Dirname(filePath)
    ensures out[|out| - |OutputFileName(timestamp)|..] == OutputFileName(timestamp)
  {
    Join(Dirname(filePath), OutputFileName(timestamp))
  }

  /** Appending a string without separators leaves the last separator where it was. */
  lemma {:induction false} SlashEndAppend(p: string, n: string)
    requires Sep !in n
    ensures SlashEnd(p + n) == SlashEnd(p)
  {
    if n != [] {
      var m := n[..|n| - 1];
      assert (p + n)[..|p + n| - 1] == p + m;
      assert n[|n| - 1] in n;
      SlashEndAppend(p, m);
    } else {
      assert p + n == p;
    }
  }

  /** The timestamped file name has no separator when the timestamp has none. */
  lemma OutputFileNameHasNoSep(timestamp: string)
    requires Sep !in timestamp
    ensures Sep !in OutputFileName(timestamp)
  {
    var n := OutputFileName(timestamp);
    forall i | 0 <= i < |n| ensures n[i] != Sep {
      if 9 <= i < 9 + |timestamp| {
        assert n[i] == timestamp[i - 9];
        assert timestamp[i - 9] in timestamp;
      }
    }
  }

  /**
   * Joining a directory and a separator-free name puts the last separator
   * just before the name; the text before the name is the directory, with a
   * separator added when it did not already end in one.
   */
  lemma JoinNameSplit(d: string, n: string)
    requires n != [] && Sep !in n
    ensures |n| <= |Join(d, n)|
    ensures SlashEnd(Join(d, n)) == |Join(d, n)| - |n|
    ensures Join(d, n)[..|Join(d, n)| - |n|] == (if d == [] || d[|d| - 1] == Sep then d else d + [Sep])
  {
    assert n[0] != Sep by { assert n[0] in n; }
    var head := if d == [] || d[|d| - 1] == Sep then d else d + [Sep];
    assert Join(d, n) == head + n;
    SlashEndAppend(head, n);
    assert (head + n)[..|head|] == head;
  }

  /**
   * The output file lands in the directory of the input file, under the
   * timestamped name: taking `dirname` and `basename` of the output path
   * gives back the input's directory and `sonuclar_<timestamp>.csv`.
   */
  lemma OutputBesideInput(filePath: string, timestamp: string)
    requires Sep !in timestamp
    ensures Dirname(OutputPath(filePath, timestamp)) == Dirname(filePath)
    ensures Basename(OutputPath(filePath, timestamp)) == OutputFileName(timestamp)
  {
    var d := Dirname(filePath);
    var n := OutputFileName(timestamp);
    OutputFileNameHasNoSep(timestamp);
    JoinNameSplit(d, n);
    if d != [] && d[|d| - 1] != Sep {
      var dSep := d + [Sep];
      assert !AllSlashes(dSep) by { assert dSep[|d| - 1] != Sep; }
      assert dSep[..|dSep| - 1] == d;
    }
  }
}
