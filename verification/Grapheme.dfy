/** Grapheme clusters: the editor's rules on code points, and the byte-level
    scans that move over whole clusters. */
module Grapheme {
  import opened Utf8

  predicate Zwj(cp: int) { cp == 0x200D }

  predicate RegionalIndicator(cp: int) { 0x1F1E6 <= cp <= 0x1F1FF }

  predicate CombiningMark(cp: int) {
    0x0300 <= cp <= 0x036F || 0x1AB0 <= cp <= 0x1AFF || 0x1DC0 <= cp <= 0x1DFF
    || 0x20D0 <= cp <= 0x20FF || 0xFE20 <= cp <= 0xFE2F
  }

  /** Variation selectors, skin tones, the joiner and combining marks. */
  predicate Extends(cp: int) {
    cp == 0xFE0E || cp == 0xFE0F || 0x1F3FB <= cp <= 0x1F3FF || Zwj(cp) || CombiningMark(cp)
  }

  /** How many code points at the front of `cps` go on with a cluster. */
  function Continues(cps: seq<int>, joined: bool, regional: bool): (n: nat)
    ensures n <= |cps|
  {
    if cps == [] then 0
    else if joined then 1 + Continues(cps[1..], false, regional)
    else if Zwj(cps[0]) then 1 + Continues(cps[1..], true, regional)
    else if Extends(cps[0]) then 1 + Continues(cps[1..], false, regional)
    else if regional && RegionalIndicator(cps[0]) then 1 + Continues(cps[1..], false, false)
    else 0
  }

  /** Code points of the cluster at the front. */
  function NextCluster(cps: seq<int>): (n: nat)
    requires cps != []
    ensures 1 <= n <= |cps|
  {
    1 + Continues(cps[1..], false, RegionalIndicator(cps[0]))
  }

  /** How many code points at the end of `cps` belong to the cluster that goes on
      with `cp`. */
  function Precedes(cps: seq<int>, cp: int): (n: nat)
    ensures n <= |cps|
    decreases |cps|
  {
    if cps == [] then 0
    else
      var prev := cps[|cps| - 1];
      if Zwj(prev) then
        if |cps| == 1 then 1 else 2 + Precedes(cps[..|cps| - 2], cps[|cps| - 2])
      else if Extends(cp) then 1 + Precedes(cps[..|cps| - 1], prev)
      else if RegionalIndicator(cp) && RegionalIndicator(prev) then 1
      else 0
  }

  /** Code points of the cluster at the end. */
  function PrevCluster(cps: seq<int>): (n: nat)
    requires cps != []
    ensures 1 <= n <= |cps|
  {
    1 + Precedes(cps[..|cps| - 1], cps[|cps| - 1])
  }

  lemma EncodeAllSnoc(cps: seq<int>)
    requires Scalars(cps) && cps != []
    ensures EncodeAll(cps) == EncodeAll(cps[..|cps| - 1]) + Encode(cps[|cps| - 1])
  {
    hide Encode;
    var n := |cps| - 1;
    EncodeAllAppend(cps[..n], [cps[n]]);
    assert cps[..n] + [cps[n]] == cps;
    assert EncodeAll([cps[n]]) == Encode(cps[n]);
  }

  lemma SomeText(cps: seq<int>)
    requires Scalars(cps)
    ensures EncodeAll(cps) == [] ==> cps == []
  {
    if cps != [] { EncodeAllSnoc(cps); }
  }

  /** utf8DecodePrev: scan back to the lead byte of the code point before `pos`. */
  method DecodePrev(buf: seq<Byte>, pos: nat, ghost cps: seq<int>) returns (cp: int, cplen: nat)
    requires pos <= |buf| && Scalars(cps) && buf[..pos] == EncodeAll(cps)
    ensures cps == [] ==> cplen == 0
    ensures cps != [] ==> cp == cps[|cps| - 1] && cplen == |Encode(cp)| <= pos
                          && buf[..pos - cplen] == EncodeAll(cps[..|cps| - 1])
  {
    hide Encode, EncodeAll, DecodeChar, ByteLen, Scalar;
    EmptyText();
    if pos == 0 {
      if cps != [] { EncodeAllSnoc(cps); }
      return 0, 0;
    }
    ghost var last := cps[|cps| - 1];
    ghost var e, front := Encode(last), EncodeAll(cps[..|cps| - 1]);
    EncodeAllSnoc(cps);
    EncodeShape(last);
    assert forall j :: 0 <= j < |e| ==> buf[|front| + j] == e[j];
    var i := pos - 1;
    while i > 0 && pos - i < 4 && Continuation(buf[i])
      invariant |front| <= i < pos && pos - i <= 4
    {
      assert buf[|front|] == e[0];
      i := i - 1;
    }
    assert buf[i] == e[i - |front|];
    cplen := pos - i;
    assert buf[i..pos] == e;
    DecodeCharReads(buf[i..], e);
    cp := DecodeChar(buf[i..]);
    assert buf[..i] == front;
  }

  lemma PrecedesStep(cps: seq<int>, r: nat, cp: int)
    requires r <= |cps|
    ensures Precedes(cps[..r], cp) ==
      if r == 0 then 0
      else if Zwj(cps[r - 1]) then if r == 1 then 1 else 2 + Precedes(cps[..r - 2], cps[r - 2])
      else if Extends(cp) then 1 + Precedes(cps[..r - 1], cps[r - 1])
      else if RegionalIndicator(cp) && RegionalIndicator(cps[r - 1]) then 1
      else 0
  {
    hide Extends, Zwj, RegionalIndicator;
    var front := cps[..r];
    if r > 0 { assert front[..r - 1] == cps[..r - 1]; }
    if r > 1 { assert front[..r - 2] == cps[..r - 2]; }
  }

  /** utf8PrevCharLen: bytes of the cluster before `pos`. */
  method PrevCharLen(buf: seq<Byte>, pos: nat, ghost cps: seq<int>) returns (total: nat)
    requires pos <= |buf| && Scalars(cps) && buf[..pos] == EncodeAll(cps)
    ensures cps == [] ==> total == 0
    ensures cps != [] ==> 0 < total <= pos
                          && buf[..pos - total] == EncodeAll(cps[..|cps| - PrevCluster(cps)])
  {
    hide Encode, EncodeAll, Extends, Zwj, RegionalIndicator, Scalar, Precedes;
    if pos == 0 {
      if cps != [] { EncodeAllSnoc(cps); }
      return 0;
    }
    var cp, cplen := DecodePrev(buf, pos, cps);
    if cplen == 0 { return 0; }
    total := cplen;
    var curpos := pos - cplen;
    ghost var r := |cps| - 1;
    SomeText(cps[..r]);
    while curpos > 0
      invariant total == pos - curpos && 0 < total && 0 <= curpos && 0 <= r < |cps|
      invariant buf[..curpos] == EncodeAll(cps[..r]) && (curpos == 0 ==> r == 0)
      invariant PrevCluster(cps) == |cps| - r + Precedes(cps[..r], cp)
    {
      ghost var front := cps[..r];
      if r == 0 { assert front == []; }
      PrecedesStep(cps, r, cp);
      var prevcp, prevlen := DecodePrev(buf, curpos, front);
      if prevlen == 0 { break; }
      assert front[..r - 1] == cps[..r - 1];
      if Zwj(prevcp) {
        total, curpos := total + prevlen, curpos - prevlen;
        r := r - 1;
        if r == 0 { assert cps[..r] == []; }
        prevcp, prevlen := DecodePrev(buf, curpos, cps[..r]);
        if prevlen == 0 { break; }
        assert cps[..r][..r - 1] == cps[..r - 1];
        total, curpos := total + prevlen, curpos - prevlen;
        r := r - 1;
        cp := prevcp;
      } else if Extends(cp) {
        total, curpos := total + prevlen, curpos - prevlen;
        r := r - 1;
        cp := prevcp;
      } else if RegionalIndicator(cp) && RegionalIndicator(prevcp) {
        total, curpos := total + prevlen, curpos - prevlen;
        r := r - 1;
        break;
      } else {
        break;
      }
      SomeText(cps[..r]);
    }
    return total;
  }

  lemma EncodeAllSplit(cps: seq<int>, k: nat)
    requires Scalars(cps) && k <= |cps|
    ensures Scalars(cps[..k]) && Scalars(cps[k..])
    ensures EncodeAll(cps) == EncodeAll(cps[..k]) + EncodeAll(cps[k..])
  {
    hide Encode, EncodeAll, Scalar;
    EncodeAllAppend(cps[..k], cps[k..]);
    assert cps[..k] + cps[k..] == cps;
  }

  /** The bytes of the first `k` code points. */
  ghost function Width(cps: seq<int>, k: nat): nat
    requires Scalars(cps) && k <= |cps|
  {
    |EncodeAll(cps[..k])|
  }

  lemma WidthNext(cps: seq<int>, k: nat)
    requires Scalars(cps) && k < |cps|
    ensures Width(cps, k + 1) == Width(cps, k) + |Encode(cps[k])| <= |EncodeAll(cps)|
    ensures Width(cps, k) < |EncodeAll(cps)|
    ensures EncodeAll(cps)[Width(cps, k)..] == EncodeAll(cps[k..])
    ensures Decode(EncodeAll(cps)[Width(cps, k)..]) == (|Encode(cps[k])|, cps[k])
  {
    EncodeAllSplit(cps, k);
    EncodeAllSplit(cps, k + 1);
    EncodeAllSnoc(cps[..k + 1]);
    assert cps[..k + 1][..k] == cps[..k];
    assert cps[k..][1..] == cps[k + 1..];
    DecodeEncode(cps[k], EncodeAll(cps[k + 1..]));
  }

  /** linenoiseNextGrapheme: bytes of the cluster at the front. */
  method NextGrapheme(s: seq<Byte>, ghost cps: seq<int>) returns (used: nat)
    requires Scalars(cps) && s == EncodeAll(cps)
    ensures cps == [] ==> used == 0
    ensures cps != [] ==> 0 < used <= |s| && used == Width(cps, NextCluster(cps))
  {
    hide Encode, Decode, EncodeAll;
    var (n, cp) := Decode(s);
    used := n;
    EmptyText();
    EmptyDecodes();
    assert cps[..0] == [] && s[0..] == s;
    if cps != [] { WidthNext(cps, 0); }
    assert cps[..|cps|] == cps;
    if used == 0 { return; }
    var regional, joined := RegionalIndicator(cp), false;
    ghost var k := 1;
    while used < |s|
      invariant 1 <= k <= |cps| && used == Width(cps, k) <= |s| && 0 < used
      invariant NextCluster(cps) == k + Continues(cps[k..], joined, regional)
      decreases |s| - used
    {
      WidthNext(cps, k);
      assert cps[k..][1..] == cps[k + 1..];
      var (m, next) := Decode(s[used..]);
      if m == 0 { break; }
      if joined { joined := false; }
      else if Zwj(next) { joined := true; }
      else if Extends(next) { }
      else if regional && RegionalIndicator(next) { regional := false; }
      else { break; }
      used := used + m;
      k := k + 1;
    }
    if k < |cps| && used >= |s| { WidthNext(cps, k); }
    assert cps[|cps|..] == [];
  }

  lemma EmptyText()
    ensures EncodeAll([]) == []
  {
  }

  lemma EmptyDecodes()
    ensures Decode([]).0 == 0
  {
  }

  /** Bytes of the last cluster of a text. */
  ghost function ClusterBefore(t: seq<Byte>): (n: nat)
    requires WellFormed(t)
  {
    CodePointsEncode(t);
    var cps := CodePoints(t);
    if cps == [] then 0
    else
      EncodeAllSplit(cps, |cps| - PrevCluster(cps));
      |t| - |EncodeAll(cps[..|cps| - PrevCluster(cps)])|
  }

  /** Bytes of the first cluster of a text. */
  ghost function ClusterAfter(t: seq<Byte>): (n: nat)
    requires WellFormed(t)
  {
    CodePointsEncode(t);
    var cps := CodePoints(t);
    if cps == [] then 0 else Width(cps, NextCluster(cps))
  }

  /** Stepping back over a cluster stays on a code-point boundary. */
  method StepBack(buf: seq<Byte>, pos: nat) returns (n: nat)
    requires pos <= |buf| && WellFormed(buf[..pos])
    ensures n == ClusterBefore(buf[..pos]) <= pos && (pos > 0 ==> n > 0)
    ensures WellFormed(buf[..pos - n])
  {
    hide Encode, Decode, EncodeAll, WellFormed;
    ghost var cps := CodePoints(buf[..pos]);
    CodePointsEncode(buf[..pos]);
    n := PrevCharLen(buf, pos, cps);
    EmptyText();
    if cps != [] {
      EncodeCodePoints(cps[..|cps| - PrevCluster(cps)]);
      EncodeAllSplit(cps, |cps| - PrevCluster(cps));
    }
    assert buf[..pos][..pos - n] == buf[..pos - n];
  }

  /** utf8NextCharLen: stepping over a cluster stays on a code-point boundary. */
  method StepForward(buf: seq<Byte>, pos: nat) returns (n: nat)
    requires pos <= |buf| && WellFormed(buf[pos..])
    ensures n == ClusterAfter(buf[pos..]) && pos + n <= |buf| && (pos < |buf| ==> n > 0)
    ensures WellFormed(buf[pos..pos + n])
  {
    hide Encode, Decode, EncodeAll, WellFormed;
    ghost var cps := CodePoints(buf[pos..]);
    CodePointsEncode(buf[pos..]);
    EmptyText();
    EncodeCodePoints([]);
    assert buf[pos..pos] == [];
    if pos >= |buf| {
      SomeText(cps);
      return 0;
    }
    n := NextGrapheme(buf[pos..], cps);
    ghost var k := NextCluster(cps);
    EncodeAllSplit(cps, k);
    EncodeCodePoints(cps[..k]);
    assert buf[pos..pos + n] == EncodeAll(cps[..k]);
  }
}
