/** What the cluster rules amount to: marks and joiners make one cluster with what
    they follow, flags go in pairs, and on such clusters both scans agree. */
module Clusters {
  import opened Utf8
  import opened Grapheme
  import opened EditLine

  /** A character that begins a cluster. */
  predicate Base(cp: int) {
    Scalar(cp) && !Extends(cp) && !RegionalIndicator(cp)
  }

  /** A base, then any marks and any further bases behind joiners. */
  predicate Whole(c: seq<int>) {
    var n := |c|;
    n > 0 && (if n == 1 then Base(c[0])
              else if Extends(c[n - 1]) then Scalar(c[n - 1]) && !Zwj(c[n - 1]) && Whole(c[..n - 1])
              else Base(c[n - 1]) && Zwj(c[n - 2]) && n > 2 && Whole(c[..n - 2]))
  }

  lemma {:induction false} WholeScalars(c: seq<int>)
    requires Whole(c)
    ensures Scalars(c) && !Zwj(c[|c| - 1]) && !RegionalIndicator(c[0])
  {
    var n := |c|;
    if n > 1 {
      if Extends(c[n - 1]) { WholeScalars(c[..n - 1]); } else { WholeScalars(c[..n - 2]); }
    }
  }

  /** Its last code point is its base, a mark, or a base behind a joiner. */
  lemma WholeLast(c: seq<int>)
    requires Whole(c)
    ensures c != []
    ensures var n := |c|; var last := c[n - 1];
      && (n == 1 ==> !Extends(last) && !RegionalIndicator(last))
      && (n > 1 && Extends(last) ==> Whole(c[..n - 1]) && !Zwj(c[n - 2]))
      && (n > 1 && !Extends(last) ==> n > 2 && Zwj(c[n - 2]) && Whole(c[..n - 2]))
  {
    if |c| > 1 && Extends(c[|c| - 1]) { WholeScalars(c[..|c| - 1]); }
  }

  /** The scan back from behind such a cluster takes exactly the cluster, unless a
      joiner before it joins it to something else. */
  lemma {:induction false} WholeBack(a: seq<int>, c: seq<int>)
    requires Whole(c) && (a != [] ==> !Zwj(a[|a| - 1]))
    ensures c != [] && PrevCluster(a + c) == |c|
    decreases |c|
  {
    hide Extends, Zwj, RegionalIndicator, Whole, Precedes;
    WholeLast(c);
    Fronts(a, c);
    var all, n := a + c, |c|;
    PrecedesStep(all, |all| - 1, c[n - 1]);
    if n > 1 {
      WholeBack(a, if Extends(c[n - 1]) then c[..n - 1] else c[..n - 2]);
    }
  }

  lemma Fronts(a: seq<int>, c: seq<int>)
    requires c != []
    ensures var all, n := a + c, |c|; var last := |all| - 1;
      && all[last] == c[n - 1]
      && (n > 1 ==> all[last - 1] == c[n - 2] && (a + c[..n - 1])[..last - 1] == all[..last - 1] && |a + c[..n - 1]| == last)
      && (n > 2 ==> all[last - 2] == c[n - 3] && (a + c[..n - 2])[..last - 2] == all[..last - 2] && |a + c[..n - 2]| == last - 1)
  {
  }

  /** The scan forward goes on behind such a cluster as it would behind its base. */
  lemma {:induction false} WholeGoesOn(c: seq<int>, d: seq<int>)
    requires Whole(c)
    ensures Continues((c + d)[1..], false, false) == |c| - 1 + Continues(d, false, false)
    decreases |c|
  {
    var n := |c|;
    if n == 1 {
      assert (c + d)[1..] == d;
    } else if Extends(c[n - 1]) {
      var more := [c[n - 1]] + d;
      assert c + d == c[..n - 1] + more && more[1..] == d;
      WholeGoesOn(c[..n - 1], more);
    } else {
      var more := [c[n - 2], c[n - 1]] + d;
      assert c + d == c[..n - 2] + more && more[1..][1..] == d && more[1..][0] == c[n - 1];
      WholeGoesOn(c[..n - 2], more);
    }
  }

  lemma WholeAhead(c: seq<int>, d: seq<int>)
    requires Whole(c) && (d != [] ==> !Extends(d[0]))
    ensures NextCluster(c + d) == |c|
  {
    WholeGoesOn(c, d);
    WholeScalars(c);
  }

  /** A flag is two regional indicators, for both scans. */
  lemma FlagPairs(a: seq<int>, r: int, s: int, d: seq<int>)
    requires RegionalIndicator(r) && RegionalIndicator(s)
    ensures PrevCluster(a + [r, s]) == 2
    ensures d == [] || !Extends(d[0]) ==> NextCluster([r, s] + d) == 2
  {
    var all := a + [r, s];
    assert all[..|all| - 1] == a + [r] && (a + [r])[|a|] == r;
    if d == [] || !Extends(d[0]) {
      assert Continues(d, false, false) == 0;
      assert ([s] + d)[0] == s && ([s] + d)[1..] == d && Continues([s] + d, false, true) == 1;
      assert ([r, s] + d)[0] == r && ([r, s] + d)[1..] == [s] + d;
    }
  }

  /** In bytes: between the two texts, cut where clusters meet, both scans cover the
      middle exactly. */
  lemma ScansAgree(a: seq<int>, c: seq<int>, d: seq<int>)
    requires Scalars(a) && Scalars(d) && Whole(c)
    requires (a != [] ==> !Zwj(a[|a| - 1])) && (d != [] ==> !Extends(d[0]))
    ensures Scalars(a + c) && Scalars(c + d) && Scalars(c)
    ensures var before, after := EncodeAll(a + c), EncodeAll(c + d);
      && WellFormed(before) && WellFormed(after)
      && ClusterBefore(before) == |EncodeAll(c)| == ClusterAfter(after)
  {
    hide Encode, EncodeAll, WellFormed, Whole, ClusterBefore, Extends, Zwj, Continues, Precedes;
    WholeScalars(c);
    WholeBack(a, c);
    WholeAhead(c, d);
    EncodeAllAppend(a, c);
    EncodeAllAppend(c, d);
    ClusterIs(a + c);
    assert (a + c)[..|a|] == a && (c + d)[..|c|] == c;
    EncodeCodePoints(c + d);
  }
}
