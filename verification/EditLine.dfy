/** The edited line as a value: the bytes, the cursor and the fold ranges, and
    what each editing key makes of them. */
module EditLine {
  import Basics
  import opened Utf8
  import opened Grapheme
  import opened Folds

  datatype Line = Line(buf: seq<Byte>, pos: nat, folds: seq<Fold>)

  const SPACE := 32

  /** A position between two code points. */
  ghost predicate Boundary(buf: seq<Byte>, pos: int) {
    0 <= pos <= |buf| && WellFormed(buf[..pos]) && WellFormed(buf[pos..])
  }

  /** Well-formed text without NUL, a cursor between code points, and at most
      sixteen folds, each on the text it was created for. */
  ghost predicate Sound(l: Line, texts: seq<seq<Byte>>) {
    && WellFormed(l.buf) && 0 !in l.buf
    && Boundary(l.buf, l.pos)
    && |l.folds| <= MAX_FOLDS && Covers(l.buf, l.folds, texts, 0)
  }

  /** Text that may be inserted. */
  predicate Insertable(t: seq<Byte>) {
    WellFormed(t) && 0 !in t
  }

  lemma BoundaryFromLeft(buf: seq<Byte>, pos: nat)
    requires pos <= |buf| && WellFormed(buf) && WellFormed(buf[..pos])
    ensures Boundary(buf, pos)
  {
    assert buf[..pos] + buf[pos..] == buf;
    Cut(buf[..pos], buf[pos..]);
  }

  lemma Ends(buf: seq<Byte>)
    requires WellFormed(buf)
    ensures Boundary(buf, 0) && Boundary(buf, |buf|)
  {
    assert buf[..|buf|] == buf && buf[0..] == buf;
    BoundaryFromLeft(buf, 0);
    BoundaryFromLeft(buf, |buf|);
  }

  function Typed(l: Line, t: seq<Byte>): Line
    requires l.pos <= |l.buf|
  {
    Line(Inserted(l.buf, l.pos, t), l.pos + |t|, AfterInsert(l.folds, l.pos, |t|))
  }

  /** [at, at + n) gone and the cursor left there. */
  function Erased(l: Line, at: nat, n: nat): Line
    requires at + n <= |l.buf|
  {
    Line(Deleted(l.buf, at, n), at, AfterDelete(l.folds, at, n))
  }

  lemma JoinBoundary(a: seq<Byte>, b: seq<Byte>)
    requires WellFormed(a) && WellFormed(b)
    ensures WellFormed(a + b) && Boundary(a + b, |a|)
  {
    Join(a, b);
    assert (a + b)[..|a|] == a && (a + b)[|a|..] == b;
  }

  /** The text after an insertion, and the boundary behind what was inserted. */
  lemma TypedText(l: Line, t: seq<Byte>)
    requires Boundary(l.buf, l.pos) && 0 !in l.buf && Insertable(t)
    ensures var l' := Typed(l, t); WellFormed(l'.buf) && 0 !in l'.buf && Boundary(l'.buf, l'.pos)
  {
    hide WellFormed;
    Join(l.buf[..l.pos], t);
    JoinBoundary(l.buf[..l.pos] + t, l.buf[l.pos..]);
  }

  lemma TypedSound(l: Line, texts: seq<seq<Byte>>, t: seq<Byte>)
    requires Sound(l, texts) && Insertable(t)
    ensures |texts| == |l.folds| && Sound(Typed(l, t), TextsAfterInsert(l.folds, texts, l.pos))
  {
    assert Boundary(l.buf, l.pos) && WellFormed(l.buf[..l.pos]) && WellFormed(t);
    hide WellFormed, Covers, Layout, AfterInsert, Inserted, Boundary;
    CoversLayout(l.buf, l.folds, texts, 0);
    InsertKeepsFolds(l.buf, l.pos, t, l.folds, texts, 0);
    var l' := Typed(l, t);
    CoversFrom(l'.buf, l'.folds, TextsAfterInsert(l.folds, texts, l.pos), if l.pos <= 0 then |t| else 0, 0);
    TypedText(l, t);
  }

  lemma ErasedSound(l: Line, texts: seq<seq<Byte>>, at: nat, n: nat)
    requires Sound(l, texts) && Boundary(l.buf, at) && Boundary(l.buf, at + n)
    ensures |texts| == |l.folds| && Sound(Erased(l, at, n), TextsAfterDelete(l.folds, texts, at, n))
  {
    hide WellFormed, Covers, Layout, AfterDelete;
    var l' := Erased(l, at, n);
    CoversLayout(l.buf, l.folds, texts, 0);
    DeleteKeepsFolds(l.buf, at, n, l.folds, texts, 0);
    CoversFrom(l'.buf, l'.folds, TextsAfterDelete(l.folds, texts, at, n), BoundAfterDelete(0, at, n), 0);
    JoinBoundary(l.buf[..at], l.buf[at + n..]);
  }

  /** Length of the first fold that starts at `pos`, or zero. */
  function FoldFrom(fs: seq<Fold>, pos: int): int {
    if fs == [] then 0 else if pos == fs[0].start then fs[0].end - fs[0].start else FoldFrom(fs[1..], pos)
  }

  /** Length of the first fold that ends at `pos`, or zero. */
  function FoldTo(fs: seq<Fold>, pos: int): int {
    if fs == [] then 0 else if pos == fs[0].end then fs[0].end - fs[0].start else FoldTo(fs[1..], pos)
  }

  lemma {:induction false} FoldFromBoundary(buf: seq<Byte>, fs: seq<Fold>, texts: seq<seq<Byte>>, lo: int, pos: int)
    requires WellFormed(buf) && Covers(buf, fs, texts, lo)
    ensures var n := FoldFrom(fs, pos); n != 0 ==> n > 0 && Boundary(buf, pos + n)
  {
    if fs != [] {
      if pos == fs[0].start { BoundaryFromLeft(buf, fs[0].end); }
      else { FoldFromBoundary(buf, fs[1..], texts[1..], fs[0].end, pos); }
    }
  }

  lemma {:induction false} FoldToBoundary(buf: seq<Byte>, fs: seq<Fold>, texts: seq<seq<Byte>>, lo: int, pos: int)
    requires WellFormed(buf) && Covers(buf, fs, texts, lo)
    ensures var n := FoldTo(fs, pos); n != 0 ==> n > 0 && Boundary(buf, pos - n)
  {
    if fs != [] {
      if pos == fs[0].end { BoundaryFromLeft(buf, fs[0].start); }
      else { FoldToBoundary(buf, fs[1..], texts[1..], fs[0].end, pos); }
    }
  }

  /** One cursor movement to the right: a whole fold or a whole cluster. */
  ghost function NextLen(l: Line, pos: nat): int
    requires Boundary(l.buf, pos)
  {
    if FoldFrom(l.folds, pos) != 0 then FoldFrom(l.folds, pos) else ClusterAfter(l.buf[pos..])
  }

  ghost function PrevLen(l: Line, pos: nat): int
    requires Boundary(l.buf, pos)
  {
    if FoldTo(l.folds, pos) != 0 then FoldTo(l.folds, pos) else ClusterBefore(l.buf[..pos])
  }

  /** The bytes of the first cluster end at a code point. */
  lemma ClusterAfterBoundary(t: seq<Byte>)
    requires WellFormed(t)
    ensures ClusterAfter(t) <= |t| && (t != [] ==> ClusterAfter(t) > 0) && WellFormed(t[..ClusterAfter(t)])
  {
    hide Encode, Decode, EncodeAll, WellFormed;
    var cps := CodePoints(t);
    CodePointsEncode(t);
    EmptyText();
    EncodeCodePoints([]);
    assert t[..0] == [];
    if cps != [] {
      var k := NextCluster(cps);
      EncodeAllSplit(cps, k);
      EncodeCodePoints(cps[..k]);
      SomeText(cps[..k]);
      assert t[..|EncodeAll(cps[..k])|] == EncodeAll(cps[..k]);
    }
  }

  lemma ClusterBeforeBoundary(t: seq<Byte>)
    requires WellFormed(t)
    ensures ClusterBefore(t) <= |t| && (t != [] ==> ClusterBefore(t) > 0) && WellFormed(t[..|t| - ClusterBefore(t)])
  {
    hide Encode, Decode, EncodeAll, WellFormed;
    var cps := CodePoints(t);
    CodePointsEncode(t);
    EmptyText();
    assert t[..|t|] == t;
    if cps != [] {
      var k := |cps| - PrevCluster(cps);
      EncodeAllSplit(cps, k);
      EncodeCodePoints(cps[..k]);
      SomeText(cps[k..]);
      assert t[..|EncodeAll(cps[..k])|] == EncodeAll(cps[..k]);
    }
  }

  lemma BoundaryAfter(buf: seq<Byte>, pos: nat, n: nat)
    requires WellFormed(buf) && Boundary(buf, pos) && pos + n <= |buf| && WellFormed(buf[pos..][..n])
    ensures Boundary(buf, pos + n)
  {
    hide WellFormed;
    Join(buf[..pos], buf[pos..][..n]);
    assert buf[..pos] + buf[pos..][..n] == buf[..pos + n];
    BoundaryFromLeft(buf, pos + n);
  }

  lemma BoundaryBefore(buf: seq<Byte>, pos: nat, n: nat)
    requires WellFormed(buf) && n <= pos <= |buf| && WellFormed(buf[..pos][..pos - n])
    ensures Boundary(buf, pos - n)
  {
    hide WellFormed;
    assert buf[..pos][..pos - n] == buf[..pos - n];
    BoundaryFromLeft(buf, pos - n);
  }

  /** Cursor movements go from boundary to boundary and never stand still. */
  lemma NextLenBoundary(l: Line, texts: seq<seq<Byte>>, pos: nat)
    requires Sound(l, texts) && Boundary(l.buf, pos)
    ensures var n := NextLen(l, pos);
      0 <= n && Boundary(l.buf, pos + n) && (pos < |l.buf| ==> n > 0)
  {
    hide WellFormed, ClusterAfter, Covers;
    FoldFromBoundary(l.buf, l.folds, texts, 0, pos);
    ClusterAfterBoundary(l.buf[pos..]);
    if FoldFrom(l.folds, pos) == 0 { BoundaryAfter(l.buf, pos, ClusterAfter(l.buf[pos..])); }
  }

  lemma PrevLenBoundary(l: Line, texts: seq<seq<Byte>>, pos: nat)
    requires Sound(l, texts) && Boundary(l.buf, pos)
    ensures var n := PrevLen(l, pos);
      0 <= n <= pos && Boundary(l.buf, pos - n) && (pos > 0 ==> n > 0)
  {
    hide WellFormed, ClusterBefore, Covers;
    FoldToBoundary(l.buf, l.folds, texts, 0, pos);
    ClusterBeforeBoundary(l.buf[..pos]);
    if FoldTo(l.folds, pos) == 0 { BoundaryBefore(l.buf, pos, ClusterBefore(l.buf[..pos])); }
  }

  lemma BoundaryIn(buf: seq<Byte>, pos: int)
    requires Boundary(buf, pos)
    ensures 0 <= pos <= |buf|
  {
  }

  /** Where skipping back over spaces, or over non-spaces, stops. */
  ghost function SkipBack(l: Line, texts: seq<seq<Byte>>, pos: nat, spaces: bool): (r: nat)
    requires Sound(l, texts) && Boundary(l.buf, pos)
    ensures r <= pos && Boundary(l.buf, r)
    ensures r == 0 || (l.buf[r - 1] == SPACE) != spaces
    decreases pos
  {
    hide *;
    PrevLenBoundary(l, texts, pos);
    BoundaryIn(l.buf, pos);
    if pos > 0 && (l.buf[pos - 1] == SPACE) == spaces then SkipBack(l, texts, pos - PrevLen(l, pos), spaces) else pos
  }

  lemma SkipBackStep(l: Line, texts: seq<seq<Byte>>, pos: nat, spaces: bool)
    requires Sound(l, texts) && Boundary(l.buf, pos)
    ensures var n := PrevLen(l, pos); 0 <= n <= pos <= |l.buf| && Boundary(l.buf, pos - n) && (pos > 0 ==> n > 0)
    ensures SkipBack(l, texts, pos, spaces) ==
      if pos > 0 && (l.buf[pos - 1] == SPACE) == spaces then SkipBack(l, texts, pos - PrevLen(l, pos), spaces) else pos
  {
    hide WellFormed, PrevLen, Covers;
    PrevLenBoundary(l, texts, pos);
  }

  /** The start of the word before the cursor. */
  ghost function WordStart(l: Line, texts: seq<seq<Byte>>): (r: nat)
    requires Sound(l, texts)
    ensures r <= l.pos && Boundary(l.buf, r)
  {
    SkipBack(l, texts, SkipBack(l, texts, l.pos, true), false)
  }

  /** The `prev` bytes before the cursor and the `next` bytes after it trade places. */
  function Swapped(l: Line, prev: nat, next: nat): Line
    requires prev <= l.pos && l.pos + next <= |l.buf|
  {
    Line(l.buf[..l.pos - prev] + l.buf[l.pos..l.pos + next] + l.buf[l.pos - prev..l.pos] + l.buf[l.pos + next..],
         l.pos + next, l.folds)
  }

  /** Deleting and reinserting elsewhere in a stretch no fold touches leaves the folds as they are. */
  lemma {:induction false} MovedClear(fs: seq<Fold>, texts: seq<seq<Byte>>, at: nat, prev: nat, next: nat, lo: int, len: int)
    requires Layout(fs, lo, len) && Clear(fs, at, at + prev + next) && prev > 0 && |texts| == |fs|
    ensures AfterInsert(AfterDelete(fs, at + prev, next), at, next) == fs
    ensures var ds, dt := AfterDelete(fs, at + prev, next), TextsAfterDelete(fs, texts, at + prev, next);
      |dt| == |ds| && TextsAfterInsert(ds, dt, at) == texts
  {
    hide AfterDelete, TextsAfterDelete, AfterInsert, TextsAfterInsert;
    AfterDeleteStep(fs, texts, at + prev, next);
    if fs == [] {
      AfterInsertStep([], [], at, next);
    } else {
      var ds, dt := AfterDelete(fs[1..], at + prev, next), TextsAfterDelete(fs[1..], texts[1..], at + prev, next);
      assert Clear(fs[1..], at, at + prev + next);
      MovedClear(fs[1..], texts[1..], at, prev, next, fs[0].end, len);
      assert fs[0].end <= at || at + prev + next <= fs[0].start;
      var f := if fs[0].end <= at then fs[0] else Fold(fs[0].start - next, fs[0].end - next);
      assert AfterDelete(fs, at + prev, next) == [f] + ds && ([f] + ds)[1..] == ds;
      assert TextsAfterDelete(fs, texts, at + prev, next) == [texts[0]] + dt && ([texts[0]] + dt)[1..] == dt;
      AfterInsertStep([f] + ds, [texts[0]] + dt, at, next);
      assert [fs[0]] + fs[1..] == fs && [texts[0]] + texts[1..] == texts;
    }
  }

  lemma BoundariesCut(buf: seq<Byte>, a: nat, b: nat)
    requires a <= b && Boundary(buf, a) && Boundary(buf, b)
    ensures WellFormed(buf[a..b])
  {
    assert buf[..b] == buf[..a] + buf[a..b];
    Cut(buf[..a], buf[a..b]);
  }

  lemma ThreeJoin(a: seq<Byte>, b: seq<Byte>, c: seq<Byte>, d: seq<Byte>)
    requires WellFormed(a) && WellFormed(b) && WellFormed(c) && WellFormed(d)
    ensures Boundary(a + b + c + d, |a| + |b| + |c|)
  {
    hide *;
    Join(a, b);
    Join(a + b, c);
    JoinBoundary(a + b + c, d);
  }

  lemma SwappedBoundary(l: Line, prev: nat, next: nat)
    requires prev <= l.pos && l.pos + next <= |l.buf|
    requires Boundary(l.buf, l.pos - prev) && Boundary(l.buf, l.pos) && Boundary(l.buf, l.pos + next)
    ensures var s := Swapped(l, prev, next); Boundary(s.buf, s.pos)
  {
    hide WellFormed;
    BoundariesCut(l.buf, l.pos - prev, l.pos);
    BoundariesCut(l.buf, l.pos, l.pos + next);
    ThreeJoin(l.buf[..l.pos - prev], l.buf[l.pos..l.pos + next], l.buf[l.pos - prev..l.pos], l.buf[l.pos + next..]);
  }

  /** The swap as a deletion and an insertion. */
  lemma SwapMoves(l: Line, prev: nat, next: nat)
    requires prev <= l.pos && l.pos + next <= |l.buf|
    ensures var cut := Deleted(l.buf, l.pos, next);
      && l.pos - prev <= |cut| && cut[..l.pos - prev] == l.buf[..l.pos - prev]
      && Swapped(l, prev, next).buf == Inserted(cut, l.pos - prev, l.buf[l.pos..l.pos + next])
  {
    var at, cut := l.pos - prev, Deleted(l.buf, l.pos, next);
    assert cut[at..] == l.buf[at..l.pos] + l.buf[l.pos + next..];
    assert cut[..at] == l.buf[..at];
    assert l.buf[..at] + l.buf[l.pos..l.pos + next] + l.buf[at..l.pos] + l.buf[l.pos + next..]
        == l.buf[..at] + l.buf[l.pos..l.pos + next] + (l.buf[at..l.pos] + l.buf[l.pos + next..]);
  }

  lemma SwapParts(l: Line, texts: seq<seq<Byte>>, prev: nat, next: nat)
    requires Sound(l, texts) && prev <= l.pos && Boundary(l.buf, l.pos - prev) && Boundary(l.buf, l.pos + next)
    ensures l.pos + next <= |l.buf| && Insertable(l.buf[l.pos..l.pos + next])
    ensures var cut := Erased(l, l.pos, next); var at := l.pos - prev;
      at <= |cut.buf| && WellFormed(cut.buf[..at]) && |texts| == |l.folds| && Layout(l.folds, 0, |l.buf|)
      && Sound(cut, TextsAfterDelete(l.folds, texts, l.pos, next))
  {
    hide WellFormed, Covers, Layout, AfterDelete;
    BoundariesCut(l.buf, l.pos, l.pos + next);
    ErasedSound(l, texts, l.pos, next);
    SwapMoves(l, prev, next);
    CoversLayout(l.buf, l.folds, texts, 0);
  }

  lemma SwapCovers(l: Line, texts: seq<seq<Byte>>, prev: nat, next: nat)
    requires Sound(l, texts) && 0 < prev <= l.pos && Boundary(l.buf, l.pos - prev) && Boundary(l.buf, l.pos + next)
    requires Clear(l.folds, l.pos - prev, l.pos + next)
    ensures var buf := Swapped(l, prev, next).buf;
      WellFormed(buf) && 0 !in buf && Covers(buf, l.folds, texts, 0)
  {
    hide WellFormed, Covers, Boundary, Sound, Clear, Layout, AfterInsert, AfterDelete, Inserted, Deleted, Swapped, Insertable;
    SwapParts(l, texts, prev, next);
    var at, moved := l.pos - prev, l.buf[l.pos..l.pos + next];
    SwapMoves(l, prev, next);
    MovedClear(l.folds, texts, at, prev, next, 0, |l.buf|);
    MoveBack(Erased(l, l.pos, next), TextsAfterDelete(l.folds, texts, l.pos, next), at, moved);
  }

  /** Insertion somewhere else than at the cursor. */
  lemma MoveBack(l: Line, texts: seq<seq<Byte>>, at: nat, t: seq<Byte>)
    requires Sound(l, texts) && at <= |l.buf| && WellFormed(l.buf[..at]) && Insertable(t)
    ensures |texts| == |l.folds|
    ensures var buf := Inserted(l.buf, at, t);
      WellFormed(buf) && 0 !in buf && Covers(buf, AfterInsert(l.folds, at, |t|), TextsAfterInsert(l.folds, texts, at), 0)
  {
    hide WellFormed, Covers, Layout, Clear, AfterInsert, Inserted, Boundary;
    BoundaryFromLeft(l.buf, at);
    TypedSound(l.(pos := at), texts, t);
  }

  lemma SwappedSound(l: Line, texts: seq<seq<Byte>>, prev: nat, next: nat)
    requires Sound(l, texts) && 0 < prev <= l.pos && Boundary(l.buf, l.pos - prev) && Boundary(l.buf, l.pos + next)
    requires Clear(l.folds, l.pos - prev, l.pos + next)
    ensures Sound(Swapped(l, prev, next), texts)
  {
    hide WellFormed, Covers, Clear;
    SwapCovers(l, texts, prev, next);
    SwappedBoundary(l, prev, next);
  }

  lemma {:induction false} InsertThenDelete(fs: seq<Fold>, pos: nat, n: nat)
    requires Clear(fs, pos, pos)
    ensures AfterDelete(AfterInsert(fs, pos, n), pos, n) == fs
  {
    if fs != [] {
      assert Clear(fs[1..], pos, pos);
      InsertThenDelete(fs[1..], pos, n);
      var r := AfterInsert(fs[1..], pos, n);
      assert fs[0].end <= pos || pos <= fs[0].start;
      var f := if pos <= fs[0].start then Fold(fs[0].start + n, fs[0].end + n) else fs[0];
      assert AfterInsert(fs, pos, n) == [f] + r && ([f] + r)[1..] == r;
      assert [fs[0]] + fs[1..] == fs;
    }
  }

  lemma {:induction false} NoFoldTo(fs: seq<Fold>, lo: int, len: int, a: nat, b: nat)
    requires Layout(fs, lo, len) && Clear(fs, a, b) && a < b
    ensures FoldTo(fs, b) == 0
  {
    if fs != [] {
      assert Clear(fs[1..], a, b);
      NoFoldTo(fs[1..], fs[0].end, len, a, b);
    }
  }

  lemma LastCluster(before: seq<Byte>, cp: int)
    requires WellFormed(before) && Scalar(cp) && !Extends(cp) && !RegionalIndicator(cp)
    requires var cps := CodePoints(before); cps != [] ==> !Zwj(cps[|cps| - 1])
    ensures WellFormed(before + Encode(cp)) && ClusterBefore(before + Encode(cp)) == |Encode(cp)|
  {
    hide Encode, Decode, EncodeAll, WellFormed, Extends, RegionalIndicator, Zwj;
    var cps := CodePoints(before);
    var all := cps + [cp];
    CodePointsEncode(before);
    EncodeAllSnoc(all);
    assert all[..|cps|] == cps;
    EncodeCodePoints(all);
    assert PrevCluster(all) == 1;
  }

  /** Backspace takes back a code point just typed, when it starts a cluster of
      its own and the cursor is not inside a fold. */
  lemma BackspaceUndoesTyping(l: Line, texts: seq<seq<Byte>>, cp: int)
    requires Sound(l, texts) && Scalar(cp) && cp != 0
    requires !Extends(cp) && !RegionalIndicator(cp)
    requires var cps := CodePoints(l.buf[..l.pos]); cps != [] ==> !Zwj(cps[|cps| - 1])
    requires Clear(l.folds, l.pos, l.pos)
    ensures var t := Typed(l, Encode(cp)); var n := |Encode(cp)|;
      Boundary(t.buf, t.pos) && PrevLen(t, t.pos) == n && Erased(t, t.pos - n, n) == l
  {
    hide Encode, Decode, WellFormed, Covers, ClusterBefore, Layout, AfterInsert, AfterDelete, Extends, RegionalIndicator, Zwj, Clear;
    var e := Encode(cp);
    var t := Typed(l, e);
    EncodingInsertable(cp);
    TypedSound(l, texts, e);
    LastCluster(l.buf[..l.pos], cp);
    assert t.buf[..t.pos] == l.buf[..l.pos] + e;
    InsertClear(l.folds, l.pos, |e|);
    CoversLayout(l.buf, l.folds, texts, 0);
    CoversLayout(t.buf, t.folds, TextsAfterInsert(l.folds, texts, l.pos), 0);
    NoFoldTo(t.folds, 0, |t.buf|, l.pos, t.pos);
    InsertThenDelete(l.folds, l.pos, |e|);
    assert Deleted(t.buf, l.pos, |e|) == l.buf;
  }

  lemma MarkPrecedes(cps: seq<int>, p: int, m: int)
    requires Extends(m) && !Extends(p) && !RegionalIndicator(p) && (cps != [] ==> !Zwj(cps[|cps| - 1]))
    ensures var all := cps + [p, m]; PrevCluster(all) == 2 && all[..|cps|] == cps
  {
    var two, all := cps + [p], cps + [p, m];
    assert two[..|cps|] == cps && all[..|cps| + 1] == two;
    assert Precedes(cps, p) == 0;
    assert Precedes(two, m) == 1 + Precedes(two[..|cps|], p);
  }

  lemma EncodeTwo(cps: seq<int>, p: int, m: int)
    requires Scalars(cps) && Scalar(p) && Scalar(m)
    ensures Scalars(cps + [p, m]) && EncodeAll(cps + [p, m]) == EncodeAll(cps) + Encode(p) + Encode(m)
  {
    hide Encode, EncodeAll;
    var two, all := cps + [p], cps + [p, m];
    assert two[..|cps|] == cps && all[..|cps| + 1] == two;
    EncodeAllSnoc(two);
    EncodeAllSnoc(all);
  }

  /** A mark forms one cluster with an ordinary character before it. */
  lemma MarkJoins(cps: seq<int>, p: int, m: int)
    requires Scalars(cps) && Scalar(p) && Scalar(m)
    requires Extends(m) && !Extends(p) && !RegionalIndicator(p) && (cps != [] ==> !Zwj(cps[|cps| - 1]))
    ensures var t := EncodeAll(cps) + Encode(p) + Encode(m);
      WellFormed(t) && ClusterBefore(t) == |Encode(p)| + |Encode(m)|
  {
    hide *;
    EncodeTwo(cps, p, m);
    MarkPrecedes(cps, p, m);
    ClusterIs(cps + [p, m]);
  }

  /** The last cluster of an encoded text. */
  lemma ClusterIs(cps: seq<int>)
    requires Scalars(cps) && cps != []
    ensures WellFormed(EncodeAll(cps))
    ensures ClusterBefore(EncodeAll(cps)) == |EncodeAll(cps)| - |EncodeAll(cps[..|cps| - PrevCluster(cps)])|
  {
    hide Encode, Decode, EncodeAll, WellFormed;
    EncodeCodePoints(cps);
  }

  lemma EncodingInsertable(cp: int)
    requires Scalar(cp) && cp != 0
    ensures Insertable(Encode(cp))
  {
    EncodeCodePoints([cp]);
    assert EncodeAll([cp]) == Encode(cp) + EncodeAll([]) == Encode(cp);
    EncodeShape(cp);
  }
}
