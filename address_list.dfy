/**
 * Reading the address list (autoencoder.py line 63): every line of the
 * input file is stripped of surrounding whitespace and the lines that are
 * empty afterwards are dropped; the rest keep their file order. No check of
 * address syntax happens here or anywhere else in the program.
 *
 * The comprehension `[line.strip() for line in f if line.strip()]` is
 * written as its two halves: strip every line, then keep the non-empty
 * results. The second half is stated for any list of strings.
 */
module AddressList {
  import opened PyStr

  /** `[line.strip() for line in lines]` */
  function StripAll(lines: seq<string>): (stripped: seq<string>)
    ensures |stripped| == |lines|
  {
    seq(|lines|, i requires 0 <= i < |lines| => Strip(lines[i]))
  }

  /** `[s for s in ss if s]`: the non-empty entries, in order. */
  function NonEmpty(ss: seq<string>): (kept: seq<string>)
    ensures |kept| <= |ss|
    ensures forall k :: 0 <= k < |kept| ==> kept[k] != [] && kept[k] in ss
  {
    if ss == [] then []
    else
      var n := |ss| - 1;
      NonEmpty(ss[..n]) + (if ss[n] != [] then [ss[n]] else [])
  }

  /** The positions of the non-empty entries of `ss`, in order. */
  function KeptPositions(ss: seq<string>): (idx: seq<nat>)
    ensures |idx| <= |ss|
    ensures forall k :: 0 <= k < |idx| ==> idx[k] < |ss|
  {
    if ss == [] then []
    else
      var n := |ss| - 1;
      KeptPositions(ss[..n]) + (if ss[n] != [] then [n] else [])
  }

  /** `[line.strip() for line in lines if line.strip()]` */
  function ParseAddresses(lines: seq<string>): (ips: seq<string>)
    ensures |ips| <= |lines|
  {
    NonEmpty(StripAll(lines))
  }

  /** The positions of the lines that survive parsing. */
  function KeptLines(lines: seq<string>): (idx: seq<nat>)
    ensures forall k :: 0 <= k < |idx| ==> idx[k] < |lines|
  {
    KeptPositions(StripAll(lines))
  }

  /**
   * The kept positions are exactly those of the non-empty entries: each
   * holds a non-empty entry, they increase, and none is missed.
   */
  lemma {:induction false} KeptPositionsExact(ss: seq<string>)
    ensures forall k :: 0 <= k < |KeptPositions(ss)| ==> ss[KeptPositions(ss)[k]] != []
    ensures forall k, m :: 0 <= k < m < |KeptPositions(ss)| ==> KeptPositions(ss)[k] < KeptPositions(ss)[m]
    ensures forall j :: 0 <= j < |ss| && ss[j] != [] ==> j in KeptPositions(ss)
  {
    if ss != [] {
      var n := |ss| - 1;
      var earlier := ss[..n];
      KeptPositionsExact(earlier);
      var idx, idx' := KeptPositions(earlier), KeptPositions(ss);
      assert idx' == idx + (if ss[n] != [] then [n] else []);
      forall k | 0 <= k < |idx'| ensures ss[idx'[k]] != [] {
        if k < |idx| {
          assert idx'[k] == idx[k] && earlier[idx[k]] == ss[idx[k]];
        }
      }
      forall j | 0 <= j < |ss| && ss[j] != [] ensures j in idx' {
        if j < n {
          assert earlier[j] == ss[j];
          assert j in idx;
        }
      }
    }
  }

  /** The filtered list is the list of entries at the kept positions. */
  lemma {:induction false} NonEmptyAtKeptPositions(ss: seq<string>)
    ensures |NonEmpty(ss)| == |KeptPositions(ss)|
    ensures forall k :: 0 <= k < |KeptPositions(ss)| ==> NonEmpty(ss)[k] == ss[KeptPositions(ss)[k]]
  {
    if ss != [] {
      var n := |ss| - 1;
      var earlier := ss[..n];
      NonEmptyAtKeptPositions(earlier);
      var kept, idx := NonEmpty(earlier), KeptPositions(earlier);
      var kept', idx' := NonEmpty(ss), KeptPositions(ss);
      assert kept' == kept + (if ss[n] != [] then [ss[n]] else []);
      assert idx' == idx + (if ss[n] != [] then [n] else []);
      forall k | 0 <= k < |idx'| ensures kept'[k] == ss[idx'[k]] {
        if k < |idx| {
          assert kept'[k] == kept[k] && idx'[k] == idx[k];
          assert earlier[idx[k]] == ss[idx[k]];
        }
      }
    }
  }

  /** Filtering two consecutive chunks separately gives the same list. */
  lemma {:induction false} NonEmptyConcat(a: seq<string>, b: seq<string>)
    ensures NonEmpty(a + b) == NonEmpty(a) + NonEmpty(b)
  {
    if b == [] {
      assert a + b == a;
    } else {
      var n := |b| - 1;
      assert (a + b)[..|a + b| - 1] == a + b[..n];
      NonEmptyConcat(a, b[..n]);
    }
  }

  /** Every parsed address is non-empty and already stripped. */
  lemma ParseStable(lines: seq<string>)
    ensures forall k :: 0 <= k < |ParseAddresses(lines)| ==>
      ParseAddresses(lines)[k] != [] && Strip(ParseAddresses(lines)[k]) == ParseAddresses(lines)[k]
  {
    var ips := ParseAddresses(lines);
    forall k | 0 <= k < |ips| ensures ips[k] != [] && Strip(ips[k]) == ips[k] {
      var j :| 0 <= j < |lines| && StripAll(lines)[j] == ips[k];
      StripIdempotent(lines[j]);
    }
  }

  /**
   * The kept lines are exactly the lines that are not blank, in increasing
   * file order.
   */
  lemma KeptLinesExact(lines: seq<string>)
    ensures forall k :: 0 <= k < |KeptLines(lines)| ==> Strip(lines[KeptLines(lines)[k]]) != []
    ensures forall k, m :: 0 <= k < m < |KeptLines(lines)| ==> KeptLines(lines)[k] < KeptLines(lines)[m]
    ensures forall j :: 0 <= j < |lines| && Strip(lines[j]) != [] ==> j in KeptLines(lines)
  {
    var ss := StripAll(lines);
    KeptPositionsExact(ss);
    assert forall j :: 0 <= j < |lines| ==> ss[j] == Strip(lines[j]);
  }

  /**
   * The parsed list is the stripped text of exactly the kept lines, one
   * entry per kept line, in file order.
   */
  lemma ParseSelectsKeptLines(lines: seq<string>)
    ensures |ParseAddresses(lines)| == |KeptLines(lines)|
    ensures forall k :: 0 <= k < |KeptLines(lines)| ==>
      ParseAddresses(lines)[k] == Strip(lines[KeptLines(lines)[k]])
  {
    var ss := StripAll(lines);
    NonEmptyAtKeptPositions(ss);
    assert forall j :: 0 <= j < |lines| ==> ss[j] == Strip(lines[j]);
  }

  /**
   * Parsing works line by line: the list read from two consecutive chunks
   * of the file is the concatenation of the lists read from each.
   */
  lemma ParseConcat(a: seq<string>, b: seq<string>)
    ensures ParseAddresses(a + b) == ParseAddresses(a) + ParseAddresses(b)
  {
    var sa, sb, sab := StripAll(a), StripAll(b), StripAll(a + b);
    forall i | 0 <= i < |sab| ensures sab[i] == (sa + sb)[i] {
      if i < |a| {
        assert (a + b)[i] == a[i];
      } else {
        assert (a + b)[i] == b[i - |a|];
      }
    }
    assert sab == sa + sb;
    NonEmptyConcat(sa, sb);
  }

  /** An address occurs in the parsed list exactly when some line strips to it. */
  lemma ParseMembership(lines: seq<string>, x: string)
    ensures x in ParseAddresses(lines) <==>
      x != [] && exists j :: 0 <= j < |lines| && Strip(lines[j]) == x
  {
    ParseSelectsKeptLines(lines);
    KeptLinesExact(lines);
    var ips, idx := ParseAddresses(lines), KeptLines(lines);
    if x in ips {
      var k :| 0 <= k < |ips| && ips[k] == x;
      assert Strip(lines[idx[k]]) == x;
    }
    if x != [] && exists j :: 0 <= j < |lines| && Strip(lines[j]) == x {
      var j :| 0 <= j < |lines| && Strip(lines[j]) == x;
      var k :| 0 <= k < |idx| && idx[k] == j;
      assert ips[k] == x;
    }
  }

  /** A sample input file: a blank line is dropped and padding is removed. */
  lemma ParseExample()
    ensures ParseAddresses(["8.8.8.8\n", "\n", "  1.1.1.1  \n", "not-an-ip\n"])
      == ["8.8.8.8", "1.1.1.1", "not-an-ip"]
  {
    var lines := ["8.8.8.8\n", "\n", "  1.1.1.1  \n", "not-an-ip\n"];
    StripExampleLines();
    assert StripAll(lines) == ["8.8.8.8", [], "1.1.1.1", "not-an-ip"];
    NonEmptyExample();
  }

  /** Filtering the stripped lines of that example. */
  lemma NonEmptyExample()
    ensures NonEmpty(["8.8.8.8", [], "1.1.1.1", "not-an-ip"]) == ["8.8.8.8", "1.1.1.1", "not-an-ip"]
  {
    var ss: seq<string> := ["8.8.8.8", [], "1.1.1.1", "not-an-ip"];
    assert ss[..1][..0] == [];
    assert NonEmpty(ss[..1]) == ["8.8.8.8"];
    assert ss[..2][..1] == ss[..1];
    assert NonEmpty(ss[..2]) == ["8.8.8.8"];
    assert ss[..3][..2] == ss[..2];
    assert NonEmpty(ss[..3]) == ["8.8.8.8", "1.1.1.1"];
    assert ss[..3] == ss[..|ss| - 1];
  }

  /** `str.strip()` on the lines of that example. */
  lemma StripExampleLines()
    ensures Strip("8.8.8.8\n") == "8.8.8.8"
    ensures Strip("\n") == []
    ensures Strip("  1.1.1.1  \n") == "1.1.1.1"
    ensures Strip("not-an-ip\n") == "not-an-ip"
  {
    var l0, l1, l2, l3 := "8.8.8.8\n", "\n", "  1.1.1.1  \n", "not-an-ip\n";
    assert l0[0..7] == "8.8.8.8";
    StripUnique(l0, 0, 7);
    StripUnique(l1, 0, 0);
    assert l2[2..9] == "1.1.1.1";
    StripUnique(l2, 2, 9);
    assert l3[0..9] == "not-an-ip";
    StripUnique(l3, 0, 9);
  }
}
