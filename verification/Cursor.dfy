/** When the cursor stays out of folds: exactly, for the two keys that can move it
    into one, and always, for every other key and for pasting. */
module Cursor {
  import Basics
  import opened Utf8
  import opened Grapheme
  import opened Folds
  import opened EditLine
  import opened Keys
  import opened Editing
  import opened Paste

  /** The cursor is strictly inside no fold. */
  predicate Outside(l: Line) {
    Clear(l.folds, l.pos, l.pos)
  }

  /** Code points between two positions. */
  ghost function Between(buf: seq<Byte>, a: int, b: int): nat {
    if 0 <= a <= b <= |buf| && WellFormed(buf[a..b]) then |CodePoints(buf[a..b])| else 0
  }

  /** Code points of the cluster before a position, and of the one behind it. */
  ghost function CharsBefore(buf: seq<Byte>, pos: nat): nat {
    if pos <= |buf| && WellFormed(buf[..pos]) && CodePoints(buf[..pos]) != [] then PrevCluster(CodePoints(buf[..pos])) else 0
  }

  ghost function CharsAfter(buf: seq<Byte>, pos: nat): nat {
    if pos <= |buf| && WellFormed(buf[pos..]) && CodePoints(buf[pos..]) != [] then NextCluster(CodePoints(buf[pos..])) else 0
  }

  /** The cluster before the cursor ends in no fold: a fold right before the cursor
      is stepped over, and every other one on the left either begins no later than
      the cluster or ends no later than it begins. */
  ghost predicate LeftKeeps(l: Line) {
    || l.pos == 0 || FoldTo(l.folds, l.pos) != 0
    || var n := CharsBefore(l.buf, l.pos);
       forall k :: 0 <= k < |l.folds| && l.folds[k].end <= l.pos ==>
         n <= Between(l.buf, l.folds[k].end, l.pos) || Between(l.buf, l.folds[k].start, l.pos) <= n
  }

  ghost predicate RightKeeps(l: Line) {
    || l.pos == |l.buf| || FoldFrom(l.folds, l.pos) != 0
    || var n := CharsAfter(l.buf, l.pos);
       forall k :: 0 <= k < |l.folds| && l.pos <= l.folds[k].start ==>
         n <= Between(l.buf, l.pos, l.folds[k].start) || Between(l.buf, l.pos, l.folds[k].end) <= n
  }

  /** Text between boundaries has its own code points, none only when it is empty. */
  lemma CutChars(buf: seq<Byte>, a: nat, b: nat)
    requires a <= b && Boundary(buf, a) && Boundary(buf, b)
    ensures WellFormed(buf[a..b]) && CodePoints(buf[..b]) == CodePoints(buf[..a]) + CodePoints(buf[a..b])
    ensures Between(buf, a, b) == |CodePoints(buf[..b])| - |CodePoints(buf[..a])|
    ensures Between(buf, a, b) == 0 <==> a == b
  {
    hide WellFormed, Decode, CodePoints;
    assert buf[..b] == buf[..a] + buf[a..b];
    WellFormedRest(buf[..a], buf[a..b]);
    CodePointsEncode(buf[a..b]);
    SomeText(CodePoints(buf[a..b]));
    EmptyText();
    NoChars();
    if a == b { assert buf[a..b] == []; }
  }

  lemma NoChars()
    ensures WellFormed([]) && CodePoints([]) == []
  {
  }

  /** Positions are ordered like the numbers of code points before them. */
  lemma CharsOrder(buf: seq<Byte>, a: nat, b: nat)
    requires Boundary(buf, a) && Boundary(buf, b)
    ensures a <= b <==> |CodePoints(buf[..a])| <= |CodePoints(buf[..b])|
  {
    hide WellFormed, CodePoints;
    if a <= b { CutChars(buf, a, b); } else { CutChars(buf, b, a); }
  }

  lemma {:induction false} FoldEdges(buf: seq<Byte>, fs: seq<Fold>, texts: seq<seq<Byte>>, lo: int, k: nat)
    requires WellFormed(buf) && Covers(buf, fs, texts, lo) && k < |fs|
    ensures lo <= fs[k].start < fs[k].end <= |buf| && Boundary(buf, fs[k].start) && Boundary(buf, fs[k].end)
    decreases k
  {
    hide WellFormed;
    if k == 0 {
      BoundaryFromLeft(buf, fs[0].start);
      BoundaryFromLeft(buf, fs[0].end);
    } else {
      FoldEdges(buf, fs[1..], texts[1..], fs[0].end, k - 1);
    }
  }

  /** Neighbouring folds do not overlap. */
  lemma {:induction false} Apart(fs: seq<Fold>, lo: int, len: int, j: nat, k: nat)
    requires Layout(fs, lo, len) && j < |fs| && k < |fs|
    ensures lo <= fs[k].start < fs[k].end <= len
    ensures j < k ==> fs[j].end <= fs[k].start
    decreases |fs|
  {
    if k > 0 {
      Apart(fs[1..], fs[0].end, len, if j > 0 then j - 1 else 0, k - 1);
    }
  }

  /** The edges of a fold are inside no fold. */
  lemma EdgesOutside(fs: seq<Fold>, len: int, k: nat)
    requires Layout(fs, 0, len) && k < |fs|
    ensures 0 <= fs[k].start < fs[k].end && Clear(fs, fs[k].start, fs[k].start) && Clear(fs, fs[k].end, fs[k].end)
  {
    hide Layout;
    Apart(fs, 0, len, k, k);
    forall j | 0 <= j < |fs| ensures j != k ==> fs[j].end <= fs[k].start || fs[k].end <= fs[j].start {
      Apart(fs, 0, len, j, k);
      Apart(fs, 0, len, k, j);
    }
    forall j | 0 <= j < |fs| ensures fs[j].end <= fs[k].start || fs[k].start <= fs[j].start {
      Apart(fs, 0, len, j, j);
    }
    forall j | 0 <= j < |fs| ensures fs[j].end <= fs[k].end || fs[k].end <= fs[j].start {
    }
  }

  lemma {:induction false} FoundTo(fs: seq<Fold>, pos: int) returns (k: nat)
    requires FoldTo(fs, pos) != 0
    ensures k < |fs| && fs[k].end == pos && FoldTo(fs, pos) == fs[k].end - fs[k].start
  {
    if pos == fs[0].end { k := 0; } else { k := FoundTo(fs[1..], pos); k := k + 1; }
  }

  lemma {:induction false} FoundFrom(fs: seq<Fold>, pos: int) returns (k: nat)
    requires FoldFrom(fs, pos) != 0
    ensures k < |fs| && fs[k].start == pos && FoldFrom(fs, pos) == fs[k].end - fs[k].start
  {
    if pos == fs[0].start { k := 0; } else { k := FoundFrom(fs[1..], pos); k := k + 1; }
  }

  /** Stepping over a cluster is stepping over its code points. */
  lemma StepsBack(buf: seq<Byte>, pos: nat, to: nat)
    requires Boundary(buf, pos) && pos > 0 && to == pos - ClusterBefore(buf[..pos]) && Boundary(buf, to)
    ensures |CodePoints(buf[..to])| == |CodePoints(buf[..pos])| - CharsBefore(buf, pos)
  {
    hide WellFormed, Decode, CodePoints, Encode, EncodeAll;
    var cps := CodePoints(buf[..pos]);
    CodePointsEncode(buf[..pos]);
    EmptyText();
    var front := cps[..|cps| - PrevCluster(cps)];
    EncodeAllSplit(cps, |cps| - PrevCluster(cps));
    EncodeCodePoints(front);
    assert buf[..pos][..to] == buf[..to];
  }

  lemma StepsAhead(buf: seq<Byte>, pos: nat, to: nat)
    requires Boundary(buf, pos) && pos < |buf| && to == pos + ClusterAfter(buf[pos..]) && Boundary(buf, to)
    ensures |CodePoints(buf[..to])| == |CodePoints(buf[..pos])| + CharsAfter(buf, pos)
  {
    hide WellFormed, Decode, CodePoints, Encode, EncodeAll;
    var cps := CodePoints(buf[pos..]);
    CodePointsEncode(buf[pos..]);
    EmptyText();
    EncodeAllSplit(cps, NextCluster(cps));
    EncodeCodePoints(cps[..NextCluster(cps)]);
    assert buf[pos..][..to - pos] == buf[pos..to];
    CutChars(buf, pos, to);
  }

  /** A place on the left is inside a fold exactly when it lies past its start and
      before its end, counted in code points. */
  lemma InsideLeft(buf: seq<Byte>, f: Fold, pos: nat, to: nat, n: nat)
    requires 0 <= f.start < f.end <= pos && to <= pos
    requires Boundary(buf, f.start) && Boundary(buf, f.end) && Boundary(buf, pos) && Boundary(buf, to)
    requires |CodePoints(buf[..to])| == |CodePoints(buf[..pos])| - n
    ensures f.end <= to <==> n <= Between(buf, f.end, pos)
    ensures to <= f.start <==> Between(buf, f.start, pos) <= n
  {
    hide WellFormed, CodePoints;
    CutChars(buf, f.end, pos);
    CutChars(buf, f.start, pos);
    CharsOrder(buf, f.end, to);
    CharsOrder(buf, to, f.start);
  }

  lemma InsideRight(buf: seq<Byte>, f: Fold, pos: nat, to: nat, n: nat)
    requires pos <= f.start < f.end <= |buf| && pos <= to
    requires Boundary(buf, f.start) && Boundary(buf, f.end) && Boundary(buf, pos) && Boundary(buf, to)
    requires |CodePoints(buf[..to])| == |CodePoints(buf[..pos])| + n
    ensures to <= f.start <==> n <= Between(buf, pos, f.start)
    ensures f.end <= to <==> Between(buf, pos, f.end) <= n
  {
    hide WellFormed, CodePoints;
    CutChars(buf, pos, f.end);
    CutChars(buf, pos, f.start);
    CharsOrder(buf, f.end, to);
    CharsOrder(buf, to, f.start);
  }

  /** A step to the left ends outside all folds exactly when the cluster it goes over
      does. */
  lemma LeftExactly(l: Line, texts: seq<seq<Byte>>)
    requires Sound(l, texts) && Outside(l) && l.pos > 0
    ensures 0 <= l.pos - PrevLen(l, l.pos)
    ensures Clear(l.folds, l.pos - PrevLen(l, l.pos), l.pos - PrevLen(l, l.pos)) <==> LeftKeeps(l)
  {
    hide WellFormed, CodePoints, Covers, Layout, ClusterBefore, CharsBefore, Between, FoldTo;
    PrevLenBoundary(l, texts, l.pos);
    CoversLayout(l.buf, l.folds, texts, 0);
    var to := l.pos - PrevLen(l, l.pos);
    if FoldTo(l.folds, l.pos) != 0 {
      var k := FoundTo(l.folds, l.pos);
      EdgesOutside(l.folds, |l.buf|, k);
    } else {
      StepsBack(l.buf, l.pos, to);
      forall k | 0 <= k < |l.folds|
        ensures l.folds[k].end <= l.pos ==>
          (l.folds[k].end <= to <==> CharsBefore(l.buf, l.pos) <= Between(l.buf, l.folds[k].end, l.pos))
          && (to <= l.folds[k].start <==> Between(l.buf, l.folds[k].start, l.pos) <= CharsBefore(l.buf, l.pos))
      {
        FoldEdges(l.buf, l.folds, texts, 0, k);
        if l.folds[k].end <= l.pos { InsideLeft(l.buf, l.folds[k], l.pos, to, CharsBefore(l.buf, l.pos)); }
      }
    }
  }

  lemma RightExactly(l: Line, texts: seq<seq<Byte>>)
    requires Sound(l, texts) && Outside(l) && l.pos < |l.buf|
    ensures 0 <= l.pos + NextLen(l, l.pos)
    ensures Clear(l.folds, l.pos + NextLen(l, l.pos), l.pos + NextLen(l, l.pos)) <==> RightKeeps(l)
  {
    hide WellFormed, CodePoints, Covers, Layout, ClusterAfter, CharsAfter, Between, FoldFrom;
    NextLenBoundary(l, texts, l.pos);
    CoversLayout(l.buf, l.folds, texts, 0);
    var to := l.pos + NextLen(l, l.pos);
    if FoldFrom(l.folds, l.pos) != 0 {
      var k := FoundFrom(l.folds, l.pos);
      EdgesOutside(l.folds, |l.buf|, k);
    } else {
      StepsAhead(l.buf, l.pos, to);
      forall k | 0 <= k < |l.folds|
        ensures l.pos <= l.folds[k].start ==>
          (to <= l.folds[k].start <==> CharsAfter(l.buf, l.pos) <= Between(l.buf, l.pos, l.folds[k].start))
          && (l.folds[k].end <= to <==> Between(l.buf, l.pos, l.folds[k].end) <= CharsAfter(l.buf, l.pos))
      {
        FoldEdges(l.buf, l.folds, texts, 0, k);
        if l.pos <= l.folds[k].start { InsideRight(l.buf, l.folds[k], l.pos, to, CharsAfter(l.buf, l.pos)); }
      }
    }
  }

  /** A pasted mark forms one cluster with the character before the fold, and a step
      to the right goes over both, into the fold. */
  lemma RightEntersFold(p: int, m: int, rest: seq<int>)
    requires Scalar(p) && Scalar(m) && Scalars(rest) && rest != [] && p != 0 && Insertable(EncodeAll(rest))
    requires Extends(m) && !Zwj(m) && !Extends(rest[0])
    requires !(RegionalIndicator(p) && RegionalIndicator(rest[0]))
    ensures var buf := Encode(p) + Encode(m) + EncodeAll(rest);
      var l := Line(buf, 0, [Fold(|Encode(p)|, |buf|)]);
      && Sound(l, [Encode(m) + EncodeAll(rest)]) && Outside(l)
      && NextLen(l, 0) == |Encode(p)| + |Encode(m)| && !Clear(l.folds, NextLen(l, 0), NextLen(l, 0))
  {
    assert m != 0;
    hide *;
    EncodingInsertable(p);
    EncodingInsertable(m);
    SomeText(rest);
    InsertableJoin(Encode(m), EncodeAll(rest));
    Basics.Regroup(Encode(p), Encode(m), EncodeAll(rest));
    FoldAtEnd(Encode(p), Encode(m) + EncodeAll(rest));
    FrontMark(p, m, rest);
    IntoFold(Encode(p), Encode(m), EncodeAll(rest));
  }

  lemma InsertableJoin(a: seq<Byte>, b: seq<Byte>)
    requires Insertable(a) && Insertable(b)
    ensures Insertable(a + b)
  {
    hide WellFormed;
    Join(a, b);
  }

  /** Text with all but its beginning folded, and the cursor at its start. */
  lemma FoldAtEnd(a: seq<Byte>, t: seq<Byte>)
    requires Insertable(a) && Insertable(t) && a != [] && t != []
    ensures var l := Line(a + t, 0, [Fold(|a|, |a + t|)]); Sound(l, [t]) && Outside(l)
  {
    hide WellFormed, Covers;
    var buf, f := a + t, Fold(|a|, |a + t|);
    JoinBoundary(a, t);
    Ends(buf);
    assert buf[f.start..f.end] == t && buf[..f.end] == buf;
    CoversNothing(buf, f.end);
    CoversCons(buf, f, t, [], [], 0);
    assert [f] + [] == [f] && [t] + [] == [t];
  }

  lemma IntoFold(a: seq<Byte>, m: seq<Byte>, rest: seq<Byte>)
    requires a != [] && m != [] && rest != [] && WellFormed(a + m + rest) && ClusterAfter(a + m + rest) == |a| + |m|
    ensures var buf := a + m + rest; var l := Line(buf, 0, [Fold(|a|, |buf|)]);
      Boundary(buf, 0) && NextLen(l, 0) == |a| + |m| && !Clear(l.folds, |a| + |m|, |a| + |m|)
  {
    hide WellFormed, ClusterAfter;
    var buf := a + m + rest;
    Ends(buf);
    assert buf[0..] == buf;
    var f := Fold(|a|, |buf|);
    assert [f][1..] == [] && [f][0] == f;
    assert FoldFrom([f], 0) == 0;
  }

  lemma FrontMark(p: int, m: int, rest: seq<int>)
    requires Scalar(p) && Scalar(m) && Scalars(rest) && rest != []
    requires Extends(m) && !Zwj(m) && !Extends(rest[0]) && !(RegionalIndicator(p) && RegionalIndicator(rest[0]))
    ensures var buf := Encode(p) + Encode(m) + EncodeAll(rest);
      WellFormed(buf) && ClusterAfter(buf) == |Encode(p)| + |Encode(m)|
  {
    FrontCluster(p, m, rest);
    hide Encode, Decode, EncodeAll, WellFormed, Extends, RegionalIndicator, Zwj;
    var cps := [p, m] + rest;
    EncodeAllAppend([p, m], rest);
    EncodeTwo([], p, m);
    EmptyText();
    assert [] + [p, m] == [p, m];
    assert EncodeAll([p, m]) == Encode(p) + Encode(m) by { assert [] + Encode(p) + Encode(m) == Encode(p) + Encode(m); }
    EncodeCodePoints(cps);
    assert cps[..2] == [p, m];
  }

  lemma FrontCluster(p: int, m: int, rest: seq<int>)
    requires rest != [] && Extends(m) && !Zwj(m) && !Extends(rest[0]) && !(RegionalIndicator(p) && RegionalIndicator(rest[0]))
    ensures NextCluster([p, m] + rest) == 2
  {
    var cps := [p, m] + rest;
    assert cps[1..] == [m] + rest && cps[1..][1..] == rest;
    assert Continues(rest, false, RegionalIndicator(p)) == 0;
  }

  // ---- all other keys ----

  /** What is left after a deletion lies on either side of where it was. */
  lemma {:induction false} DeleteClear(fs: seq<Fold>, at: nat, n: nat)
    ensures Clear(AfterDelete(fs, at, n), at, at)
  {
    if fs != [] { DeleteClear(fs[1..], at, n); }
  }

  lemma ErasedOutside(l: Line, at: nat, n: nat)
    requires at + n <= |l.buf|
    ensures Outside(Erased(l, at, n))
  {
    DeleteClear(l.folds, at, n);
  }

  lemma TypedOutside(l: Line, t: seq<Byte>)
    requires l.pos <= |l.buf|
    ensures Outside(Typed(l, t))
  {
    InsertClear(l.folds, l.pos, |t|);
  }

  lemma EndsOutside(buf: seq<Byte>, fs: seq<Fold>, texts: seq<seq<Byte>>)
    requires Covers(buf, fs, texts, 0)
    ensures Clear(fs, 0, 0) && Clear(fs, |buf|, |buf|)
  {
    CoversLayout(buf, fs, texts, 0);
    forall k | 0 <= k < |fs| ensures 0 <= fs[k].start && fs[k].end <= |buf| { Apart(fs, 0, |buf|, k, k); }
  }

  /** Adding a fold that does not contain the place keeps it outside. */
  lemma {:induction false} AddClear(fs: seq<Fold>, f: Fold, pos: nat)
    requires Clear(fs, pos, pos) && (f.end <= pos || pos <= f.start)
    ensures Clear(Add(fs, f), pos, pos)
  {
    if fs != [] && f.start >= fs[0].start {
      assert Clear(fs[1..], pos, pos);
      AddClear(fs[1..], f, pos);
    }
  }

  predicate MovesLeft(ev: Event) {
    ev == Control(2) || (ev.Sequence? && ev.body != DELETE && ev.body != PASTE && ev.body != [] && ev.body[|ev.body| - 1] == 'D' as int)
  }

  predicate MovesRight(ev: Event) {
    ev == Control(6) || (ev.Sequence? && ev.body != DELETE && ev.body != PASTE && ev.body != [] && ev.body[|ev.body| - 1] == 'C' as int)
  }

  lemma LeftOutside(e: Edit, cap: nat)
    requires Good(e, cap) && Outside(e.line)
    ensures Outside(Left(e, cap).line) <==> LeftKeeps(e.line)
  {
    hide WellFormed, Clear, LeftKeeps, PrevLen, Covers;
    PrevLenBoundary(e.line, e.texts, e.line.pos);
    if e.line.pos > 0 { LeftExactly(e.line, e.texts); } else { AtStart(e.line); }
  }

  lemma RightOutside(e: Edit, cap: nat)
    requires Good(e, cap) && Outside(e.line)
    ensures Outside(Right(e, cap).line) <==> RightKeeps(e.line)
  {
    hide WellFormed, Clear, RightKeeps, NextLen, Covers;
    NextLenBoundary(e.line, e.texts, e.line.pos);
    if e.line.pos < |e.line.buf| { RightExactly(e.line, e.texts); } else { AtEnd(e.line); }
  }

  lemma AtStart(l: Line)
    requires l.pos == 0
    ensures LeftKeeps(l)
  {
  }

  lemma AtEnd(l: Line)
    requires l.pos == |l.buf|
    ensures RightKeeps(l)
  {
  }

  lemma RecallOutside(e: Edit, cap: nat, older: bool)
    requires Good(e, cap) && Outside(e.line)
    ensures Outside(Recall(e, cap, older).line)
  {
    hide WellFormed, Covers, HistoryFolds, Clear;
    var r := Recall(e, cap, older);
    if r.line != e.line { EndsOutside(r.line.buf, r.line.folds, r.texts); }
  }

  lemma SwapOutside(e: Edit, cap: nat)
    requires Good(e, cap) && Outside(e.line)
    ensures Outside(Swap(e, cap).line)
  {
    hide WellFormed, Covers, PrevLen, NextLen, Swap;
    SwapIs(e, cap);
  }

  lemma EndKeysOutside(e: Edit, cap: nat)
    requires Good(e, cap)
    ensures Outside(Home(e, cap).line) && Outside(End(e, cap).line)
  {
    hide WellFormed, Covers, Clear;
    EndsOutside(e.line.buf, e.line.folds, e.texts);
  }

  lemma EraseOutside(e: Edit, cap: nat, at: nat, n: nat)
    requires Good(e, cap) && Boundary(e.line.buf, at) && Boundary(e.line.buf, at + n)
    ensures Outside(Erase(e, cap, at, n).line)
  {
    hide WellFormed, Covers, Outside;
    ErasedOutside(e.line, at, n);
  }

  /** Every deletion leaves the cursor outside, wherever it was, or does nothing. */
  lemma DeletionsOutside(e: Edit, cap: nat)
    requires Good(e, cap) && Outside(e.line)
    ensures Outside(Backspace(e, cap).line) && Outside(Delete(e, cap).line) && Outside(DeleteWord(e, cap).line)
    ensures Outside(KillRest(e, cap).line) && Outside(KillLine(e, cap).line)
  {
    hide WellFormed, Covers, PrevLen, NextLen, WordStart, Outside, Erase, Boundary, Recallable;
    var l := e.line;
    PrevLenBoundary(l, e.texts, l.pos);
    NextLenBoundary(l, e.texts, l.pos);
    BoundaryIn(l.buf, l.pos);
    Ends(l.buf);
    if l.pos > 0 { EraseOutside(e, cap, l.pos - PrevLen(l, l.pos), PrevLen(l, l.pos)); }
    if l.pos < |l.buf| { EraseOutside(e, cap, l.pos, NextLen(l, l.pos)); }
    EraseOutside(e, cap, WordStart(l, e.texts), l.pos - WordStart(l, e.texts));
    EraseOutside(e, cap, l.pos, |l.buf| - l.pos);
    NoFolds();
  }

  lemma NoFolds()
    ensures Outside(Line([], 0, []))
  {
  }

  /** A cursor outside all folds stays outside at every key, but for the two moves
      in exactly the cases above. */
  lemma StaysOutside(e: Edit, cap: nat, ev: Event)
    requires Good(e, cap) && Outside(e.line) && WellBehaved(ev) && Press(e, cap, ev).More?
    ensures Outside(Press(e, cap, ev).next.line) <==>
      (MovesLeft(ev) ==> LeftKeeps(e.line)) && (MovesRight(ev) ==> RightKeeps(e.line))
  {
    hide WellFormed, Good, Outside, LeftKeeps, RightKeeps;
    hide Left, Right, Home, End, Backspace, Delete, DeleteWord, KillRest, KillLine, Swap, Recall, Type;
    LeftOutside(e, cap);
    RightOutside(e, cap);
    RecallOutside(e, cap, true);
    RecallOutside(e, cap, false);
    SwapOutside(e, cap);
    EndKeysOutside(e, cap);
    DeletionsOutside(e, cap);
    if ev.Text? { TypeOutside(e, cap, ev.bytes); }
  }

  lemma TypeOutside(e: Edit, cap: nat, t: seq<Byte>)
    requires Good(e, cap) && Insertable(t) && Outside(e.line)
    ensures Outside(Type(e, cap, t).line)
  {
    hide WellFormed, Covers, Clear, AfterInsert;
    TypedOutside(e.line, t);
  }

  /** Pasting never leaves the cursor inside a fold. */
  lemma PasteOutside(e: Edit, cap: nat, payload: seq<Byte>)
    requires Good(e, cap) && Outside(e.line)
    ensures Outside(Pasted(e, cap, payload).line)
  {
    hide WellFormed, Covers, Clear, AfterInsert, Normalized, Clean, ShouldFold, Type, Add, AddText;
    var t := Normalized(payload);
    if payload != [] && |payload| <= Room(e.line, cap) && Clean(t) {
      CleanInsertable(t);
      TypeOutside(e, cap, t);
      NormalizedNonempty(payload);
      TypedEnd(e, cap, t);
      AddClear(Type(e, cap, t).line.folds, Fold(e.line.pos, e.line.pos + |t|), e.line.pos + |t|);
    }
  }

  lemma TypedEnd(e: Edit, cap: nat, t: seq<Byte>)
    requires Good(e, cap) && Insertable(t)
    ensures |e.line.buf| + |t| <= cap ==> Type(e, cap, t).line.pos == e.line.pos + |t|
  {
    hide WellFormed, Covers;
  }
}
