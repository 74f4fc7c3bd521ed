/** What each key does to the bytes, the cursor, the folds and the history, in those
    terms alone. */
module KeyEffects {
  import opened Utf8
  import opened Grapheme
  import opened Folds
  import opened EditLine
  import opened Keys
  import opened Editing

  /** [a, pos) is one fold or, where none ends at `pos`, one cluster. */
  ghost predicate UnitBefore(l: Line, a: int, pos: nat) {
    && Boundary(l.buf, pos) && 0 <= a < pos
    && (|| Fold(a, pos) in l.folds
        || ((forall f :: f in l.folds ==> f.end != pos) && pos - a == ClusterBefore(l.buf[..pos])))
  }

  /** [pos, b) is one fold or, where none starts at `pos`, one cluster. */
  ghost predicate UnitAfter(l: Line, pos: nat, b: int) {
    && Boundary(l.buf, pos) && pos < b <= |l.buf|
    && (|| Fold(pos, b) in l.folds
        || ((forall f :: f in l.folds ==> f.start != pos) && b - pos == ClusterAfter(l.buf[pos..])))
  }

  lemma {:induction false} FoldToIs(fs: seq<Fold>, lo: int, len: int, pos: int)
    requires Layout(fs, lo, len)
    ensures var n := FoldTo(fs, pos);
      if n != 0 then Fold(pos - n, pos) in fs else forall f :: f in fs ==> f.end != pos
  {
    if fs != [] && pos != fs[0].end { FoldToIs(fs[1..], fs[0].end, len, pos); }
    if fs != [] { assert fs[0] == Fold(fs[0].start, fs[0].end) && [fs[0]] + fs[1..] == fs; }
  }

  lemma {:induction false} FoldFromIs(fs: seq<Fold>, lo: int, len: int, pos: int)
    requires Layout(fs, lo, len)
    ensures var n := FoldFrom(fs, pos);
      if n != 0 then Fold(pos, pos + n) in fs else forall f :: f in fs ==> f.start != pos
  {
    if fs != [] && pos != fs[0].start { FoldFromIs(fs[1..], fs[0].end, len, pos); }
    if fs != [] { assert fs[0] == Fold(fs[0].start, fs[0].end) && [fs[0]] + fs[1..] == fs; }
  }

  lemma PrevIsUnit(e: Edit, cap: nat, pos: nat)
    requires Good(e, cap) && Boundary(e.line.buf, pos) && pos > 0
    ensures UnitBefore(e.line, pos - PrevLen(e.line, pos), pos)
  {
    hide WellFormed, Covers, ClusterBefore, Layout;
    var l := e.line;
    CoversLayout(l.buf, l.folds, e.texts, 0);
    PrevLenBoundary(l, e.texts, pos);
    FoldToIs(l.folds, 0, |l.buf|, pos);
  }

  lemma NextIsUnit(e: Edit, cap: nat, pos: nat)
    requires Good(e, cap) && Boundary(e.line.buf, pos) && pos < |e.line.buf|
    ensures UnitAfter(e.line, pos, pos + NextLen(e.line, pos))
  {
    hide WellFormed, Covers, ClusterAfter, Layout;
    var l := e.line;
    CoversLayout(l.buf, l.folds, e.texts, 0);
    NextLenBoundary(l, e.texts, pos);
    FoldFromIs(l.folds, 0, |l.buf|, pos);
  }

  /** An escape sequence by its final byte. */
  predicate Final(ev: Event, c: char) {
    ev.Sequence? && ev.body != [] && ev.body[|ev.body| - 1] == c as int
  }

  /** Which handler a key goes to. */
  lemma Handler(e: Edit, cap: nat, ev: Event)
    requires Good(e, cap) && WellBehaved(ev)
    ensures ev == Control(1) || Final(ev, 'H') ==> Press(e, cap, ev) == More(Home(e, cap))
    ensures ev == Control(5) || Final(ev, 'F') ==> Press(e, cap, ev) == More(End(e, cap))
    ensures ev == Control(2) || Final(ev, 'D') ==> Press(e, cap, ev) == More(Left(e, cap))
    ensures ev == Control(6) || Final(ev, 'C') ==> Press(e, cap, ev) == More(Right(e, cap))
    ensures ev == Control(16) || Final(ev, 'A') ==> Press(e, cap, ev) == More(Recall(e, cap, true))
    ensures ev == Control(14) || Final(ev, 'B') ==> Press(e, cap, ev) == More(Recall(e, cap, false))
    ensures ev == Control(8) || ev == Control(127) ==> Press(e, cap, ev) == More(Backspace(e, cap))
    ensures (ev == Control(4) && e.line.buf != []) || ev == Sequence(['[' as int, '3' as int, '~' as int]) ==>
      Press(e, cap, ev) == More(Delete(e, cap))
  {
    hide Good, Home, End, Left, Right, Recall, Backspace, Delete, DeleteWord, KillRest, KillLine, Swap, Type;
  }

  // ---- the cursor ----

  /** Ctrl-A, Ctrl-E, Home and End. */
  lemma EndKeys(e: Edit, cap: nat, ev: Event)
    requires Good(e, cap) && WellBehaved(ev)
    ensures ev == Control(1) || Final(ev, 'H') ==> Press(e, cap, ev) == More(e.(line := e.line.(pos := 0)))
    ensures ev == Control(5) || Final(ev, 'F') ==> Press(e, cap, ev) == More(e.(line := e.line.(pos := |e.line.buf|)))
  {
    hide WellFormed, Sound, Recallable, Press;
    Handler(e, cap, ev);
  }

  /** Ctrl-B, Ctrl-F and the two arrows: one unit, and only the cursor moves. */
  lemma StepKeys(e: Edit, cap: nat, ev: Event)
    requires Good(e, cap) && WellBehaved(ev)
    ensures ev == Control(2) || Final(ev, 'D') ==>
      if e.line.pos == 0 then Press(e, cap, ev) == More(e)
      else exists a: nat :: UnitBefore(e.line, a, e.line.pos) && Press(e, cap, ev) == More(e.(line := e.line.(pos := a)))
    ensures ev == Control(6) || Final(ev, 'C') ==>
      if e.line.pos == |e.line.buf| then Press(e, cap, ev) == More(e)
      else exists b: nat :: UnitAfter(e.line, e.line.pos, b) && Press(e, cap, ev) == More(e.(line := e.line.(pos := b)))
  {
    hide WellFormed, UnitBefore, UnitAfter, PrevLen, NextLen, Covers, Recallable, Press, Final;
    UnitsAt(e, cap);
    Handler(e, cap, ev);
  }

  /** The units beside the cursor. */
  lemma UnitsAt(e: Edit, cap: nat)
    requires Good(e, cap)
    ensures Boundary(e.line.buf, e.line.pos) && e.line.pos <= |e.line.buf|
    ensures e.line.pos > 0 ==> UnitBefore(e.line, e.line.pos - PrevLen(e.line, e.line.pos), e.line.pos)
    ensures e.line.pos < |e.line.buf| ==> UnitAfter(e.line, e.line.pos, e.line.pos + NextLen(e.line, e.line.pos))
    ensures 0 <= PrevLen(e.line, e.line.pos) <= e.line.pos && 0 <= NextLen(e.line, e.line.pos) <= |e.line.buf| - e.line.pos
  {
    hide WellFormed, UnitBefore, UnitAfter, PrevLen, NextLen, Covers;
    PrevLenBoundary(e.line, e.texts, e.line.pos);
    NextLenBoundary(e.line, e.texts, e.line.pos);
    if e.line.pos > 0 { PrevIsUnit(e, cap, e.line.pos); }
    if e.line.pos < |e.line.buf| { NextIsUnit(e, cap, e.line.pos); }
  }

  // ---- deletions ----

  /** A fold that is there once the `n` bytes at `a` are gone: one that ended before
      them, or one from behind them that has moved along. */
  predicate Survives(fs: seq<Fold>, a: int, n: int, f: Fold) {
    (f in fs && f.end <= a && f.start < a) || (a <= f.start && Fold(f.start + n, f.end + n) in fs)
  }

  /** `r` is `e` without the `n` bytes at `a`, the cursor where they were. */
  ghost predicate CutOut(e: Edit, r: Edit, a: int, n: int) {
    && 0 <= a <= a + n <= |e.line.buf|
    && r.line.buf == e.line.buf[..a] + e.line.buf[a + n..] && r.line.pos == a
    && r.history == e.history && r.index == e.index
    && (forall f :: f in r.line.folds <==> Survives(e.line.folds, a, n, f))
  }

  lemma {:induction false} AfterDeleteIs(fs: seq<Fold>, lo: int, len: int, pos: nat, n: nat, f: Fold)
    requires Layout(fs, lo, len)
    ensures f in AfterDelete(fs, pos, n) <==> Survives(fs, pos, n, f)
  {
    if fs != [] {
      AfterDeleteIs(fs[1..], fs[0].end, len, pos, n, f);
      assert [fs[0]] + fs[1..] == fs;
    }
  }

  lemma EraseCuts(e: Edit, cap: nat, at: nat, n: nat)
    requires Good(e, cap) && Boundary(e.line.buf, at) && Boundary(e.line.buf, at + n)
    ensures CutOut(e, Erase(e, cap, at, n), at, n)
  {
    hide WellFormed, Covers, AfterDelete, Layout, Recallable, Survives;
    CoversLayout(e.line.buf, e.line.folds, e.texts, 0);
    forall f: Fold ensures f in AfterDelete(e.line.folds, at, n) <==> Survives(e.line.folds, at, n, f) {
      AfterDeleteIs(e.line.folds, 0, |e.line.buf|, at, n, f);
    }
  }

  /** Backspace, and Delete in both spellings: one unit goes. */
  lemma EraseKeys(e: Edit, cap: nat, ev: Event)
    requires Good(e, cap) && WellBehaved(ev)
    ensures ev == Control(8) || ev == Control(127) ==>
      if e.line.pos == 0 then Press(e, cap, ev) == More(e)
      else exists a: nat :: UnitBefore(e.line, a, e.line.pos) && Press(e, cap, ev).More?
             && CutOut(e, Press(e, cap, ev).next, a, e.line.pos - a)
    ensures (ev == Control(4) && e.line.buf != []) || ev == Sequence(['[' as int, '3' as int, '~' as int]) ==>
      if e.line.pos == |e.line.buf| then Press(e, cap, ev) == More(e)
      else exists b: nat :: UnitAfter(e.line, e.line.pos, b) && Press(e, cap, ev).More?
             && CutOut(e, Press(e, cap, ev).next, e.line.pos, b - e.line.pos)
  {
    hide WellFormed, UnitBefore, UnitAfter, PrevLen, NextLen, Covers, Recallable, Erase, CutOut, Boundary, Press;
    var l := e.line;
    Handler(e, cap, ev);
    UnitsAt(e, cap);
    PrevLenBoundary(l, e.texts, l.pos);
    NextLenBoundary(l, e.texts, l.pos);
    EraseCuts(e, cap, l.pos - PrevLen(l, l.pos), PrevLen(l, l.pos));
    EraseCuts(e, cap, l.pos, NextLen(l, l.pos));
  }

  /** Ctrl-K keeps what is before the cursor, and Ctrl-U nothing. */
  lemma KillKeys(e: Edit, cap: nat)
    requires Good(e, cap)
    ensures var r := Press(e, cap, Control(11));
      && r.More? && CutOut(e, r.next, e.line.pos, |e.line.buf| - e.line.pos)
      && r.next.line.buf == e.line.buf[..e.line.pos] && r.next.line.pos == e.line.pos
    ensures Press(e, cap, Control(21)) == More(Edit(Line([], 0, []), [], e.history, e.index))
  {
    hide WellFormed, Covers, Recallable, Erase;
    Ends(e.line.buf);
    EraseCuts(e, cap, e.line.pos, |e.line.buf| - e.line.pos);
  }

  // ---- words ----

  /** Whole units from `a` to `b`, all ending in a space or none. */
  ghost predicate Run(l: Line, a: nat, b: nat, spaces: bool)
    decreases b
  {
    a == b
    || (0 < b <= |l.buf| && (l.buf[b - 1] == 32) == spaces && exists m: nat :: m < b && UnitBefore(l, m, b) && Run(l, a, m, spaces))
  }

  lemma {:induction false} SkipIsRun(e: Edit, cap: nat, pos: nat, spaces: bool)
    requires Good(e, cap) && Boundary(e.line.buf, pos)
    ensures Run(e.line, SkipBack(e.line, e.texts, pos, spaces), pos, spaces)
    decreases pos
  {
    hide WellFormed, Sound, UnitBefore, PrevLen, SkipBack;
    var l := e.line;
    SkipBackStep(l, e.texts, pos, spaces);
    if pos > 0 && (l.buf[pos - 1] == 32) == spaces {
      PrevIsUnit(e, cap, pos);
      SkipIsRun(e, cap, pos - PrevLen(l, pos), spaces);
    }
  }

  /** Ctrl-W: the spaces before the cursor and the word before them, both as far as
      they go. */
  lemma WordKey(e: Edit, cap: nat)
    requires Good(e, cap)
    ensures exists start: nat, mid: nat ::
      && Run(e.line, mid, e.line.pos, true) && Run(e.line, start, mid, false) && start <= mid <= e.line.pos <= |e.line.buf|
      && (mid == 0 || e.line.buf[mid - 1] != 32) && (start == 0 || e.line.buf[start - 1] == 32)
      && Press(e, cap, Control(23)).More? && CutOut(e, Press(e, cap, Control(23)).next, start, e.line.pos - start)
  {
    hide WellFormed, Covers, Recallable, SkipBack, Run, Erase, CutOut, Boundary;
    var l := e.line;
    var mid := SkipBack(l, e.texts, l.pos, true);
    var start := SkipBack(l, e.texts, mid, false);
    SkipIsRun(e, cap, l.pos, true);
    SkipIsRun(e, cap, mid, false);
    EraseCuts(e, cap, start, l.pos - start);
    BoundaryIn(l.buf, l.pos);
    assert start == WordStart(l, e.texts);
    assert Press(e, cap, Control(23)) == More(Erase(e, cap, start, l.pos - start));
    assert Run(e.line, mid, e.line.pos, true) && Run(e.line, start, mid, false);
  }

  /** Seven-bit text has clusters of one byte. */
  lemma AsciiCluster(t: seq<Byte>)
    requires WellFormed(t) && t != [] && forall i :: 0 <= i < |t| ==> t[i] < 128
    ensures ClusterBefore(t) == 1
  {
    hide WellFormed, ClusterBefore;
    var n := |t| - 1;
    AsciiPrefix(t, n);
    assert t[..n] + [t[n]] == t && Encode(t[n]) == [t[n]];
    AsciiCodePoints(t[..n]);
    LastCluster(t[..n], t[n]);
  }

  lemma {:induction false} AsciiPrefix(t: seq<Byte>, n: nat)
    requires n <= |t| && forall i :: 0 <= i < |t| ==> t[i] < 128
    ensures WellFormed(t[..n])
  {
    if n > 0 {
      AsciiPrefix(t[1..], n - 1);
      AsciiStep(t[..n]);
      assert t[..n][1..] == t[1..][..n - 1];
    }
  }

  lemma {:induction false} AsciiCodePoints(t: seq<Byte>)
    requires WellFormed(t) && forall i :: 0 <= i < |t| ==> t[i] < 128
    ensures CodePoints(t) == t
  {
    if t != [] {
      assert Decode(t) == (1, t[0]);
      AsciiCodePoints(t[1..]);
    }
  }

  /** Without folds and in seven-bit text a run is one of bytes. */
  lemma {:induction false} RunBytes(l: Line, a: nat, b: nat, spaces: bool)
    requires l.folds == [] && Run(l, a, b, spaces) && b <= |l.buf|
    requires forall i :: 0 <= i < |l.buf| ==> l.buf[i] < 128
    ensures a <= b && forall i :: a <= i < b ==> (l.buf[i] == 32) == spaces
    decreases b
  {
    hide WellFormed, ClusterBefore;
    if a != b {
      var m: nat :| m < b && UnitBefore(l, m, b) && Run(l, a, m, spaces);
      AsciiCluster(l.buf[..b]);
      RunBytes(l, a, m, spaces);
    }
  }

  // ---- the swap ----

  /** Ctrl-T: the units beside the cursor trade places if both have at most 32 bytes
      and no fold touches them, and otherwise nothing happens. */
  lemma SwapKey(e: Edit, cap: nat)
    requires Good(e, cap)
    ensures e.line.pos == 0 || e.line.pos == |e.line.buf| ==> Press(e, cap, Control(20)) == More(e)
    ensures 0 < e.line.pos < |e.line.buf| ==> exists a: nat, b: nat ::
      var l := e.line;
      && UnitBefore(l, a, l.pos) && UnitAfter(l, l.pos, b) && a < l.pos < b <= |l.buf|
      && Press(e, cap, Control(20)) == More(
           if l.pos - a <= 32 && b - l.pos <= 32 && forall f :: f in l.folds ==> f.end <= a || b <= f.start
           then e.(line := Line(l.buf[..a] + l.buf[l.pos..b] + l.buf[a..l.pos] + l.buf[b..], b, l.folds))
           else e)
  {
    hide WellFormed, UnitBefore, UnitAfter, PrevLen, NextLen, Sound, Recallable, Boundary, Swap, Clear;
    var l := e.line;
    UnitsAt(e, cap);
    SwapIs(e, cap);
    if 0 < l.pos < |l.buf| {
      var a, b := l.pos - PrevLen(l, l.pos), l.pos + NextLen(l, l.pos);
      ClearMeans(l.folds, a, b);
      assert a < l.pos < b by { UnitOrder(l, a, b); }
      assert UnitBefore(l, a, l.pos) && UnitAfter(l, l.pos, b);
    }
  }

  lemma UnitOrder(l: Line, a: int, b: int)
    requires UnitBefore(l, a, l.pos) && UnitAfter(l, l.pos, b)
    ensures 0 <= a < l.pos < b <= |l.buf|
  {
  }

  lemma ClearMeans(fs: seq<Fold>, a: nat, b: nat)
    ensures Clear(fs, a, b) <==> forall f :: f in fs ==> f.end <= a || b <= f.start
  {
  }

  // ---- typing ----

  /** A fold that is there once `n` bytes have gone in at `pos`. */
  predicate Remains(fs: seq<Fold>, pos: int, n: int, f: Fold) {
    (f in fs && f.end <= pos && f.start < pos) || (pos + n <= f.start && Fold(f.start - n, f.end - n) in fs)
  }

  lemma {:induction false} AfterInsertIs(fs: seq<Fold>, lo: int, len: int, pos: nat, n: nat, f: Fold)
    requires Layout(fs, lo, len)
    ensures f in AfterInsert(fs, pos, n) <==> Remains(fs, pos, n, f)
  {
    if fs != [] {
      AfterInsertIs(fs[1..], fs[0].end, len, pos, n, f);
      assert [fs[0]] + fs[1..] == fs;
    }
  }

  /** Text goes in at the cursor, which ends up behind it, if the line then still
      fits, and otherwise not at all. */
  lemma TypedText(e: Edit, cap: nat, t: seq<Byte>)
    requires Good(e, cap) && Insertable(t)
    ensures var l := e.line; var r := Press(e, cap, Text(t));
      && l.pos <= |l.buf|
      && if |l.buf| + |t| > cap then r == More(e)
         else
           && r.More? && r.next.line.buf == l.buf[..l.pos] + t + l.buf[l.pos..] && r.next.line.pos == l.pos + |t|
           && r.next.history == e.history && r.next.index == e.index
           && forall f :: f in r.next.line.folds <==> Remains(l.folds, l.pos, |t|, f)
  {
    hide WellFormed, Covers, AfterInsert, Layout, Recallable, Remains;
    CoversLayout(e.line.buf, e.line.folds, e.texts, 0);
    forall f: Fold ensures f in AfterInsert(e.line.folds, e.line.pos, |t|) <==> Remains(e.line.folds, e.line.pos, |t|, f) {
      AfterInsertIs(e.line.folds, 0, |e.line.buf|, e.line.pos, |t|, f);
    }
  }

  // ---- history ----

  /** Entry `k` of the history is shown: its whole text, the cursor behind it, and one
      fold exactly if it has 4096 bytes or 16 lines. */
  ghost predicate ShowsEntry(r: Edit, k: nat) {
    && k < |r.history| && r.index == |r.history| - 1 - k
    && r.line.buf == r.history[k] && r.line.pos == |r.history[k]|
    && |r.line.folds| == if |r.history[k]| >= 4096 || multiset(r.history[k])[10] >= 15 then 1 else 0
  }

  /** Ctrl-P, Ctrl-N and the two arrows: the line is stored where it came from, and
      the entry one step older or newer is shown if there is one. */
  lemma HistoryKeys(e: Edit, cap: nat, ev: Event)
    requires Good(e, cap) && WellBehaved(ev)
    requires ev == Control(16) || Final(ev, 'A') || ev == Control(14) || Final(ev, 'B')
    ensures var h, k, r := e.history, |e.history| - 1 - e.index, Press(e, cap, ev);
      var stored := h[k := e.line.buf];
      var next := if ev == Control(16) || Final(ev, 'A') then k - 1 else k + 1;
      && 0 <= k < |h| && r.More?
      && if |h| == 1 then r.next == e
         else if 0 <= next < |h| then r.next.history == stored && ShowsEntry(r.next, next)
         else r.next == e.(history := stored)
  {
    hide WellFormed, Sound, Recallable, Press, Recall, ShowsEntry;
    Handler(e, cap, ev);
    RecallShows(e, cap, ev == Control(16) || Final(ev, 'A'));
  }

  lemma RecallShows(e: Edit, cap: nat, older: bool)
    requires Good(e, cap)
    ensures var h, k, r := e.history, |e.history| - 1 - e.index, Recall(e, cap, older);
      var stored, next := h[k := e.line.buf], if older then k - 1 else k + 1;
      if |h| == 1 then r == e
      else if 0 <= next < |h| then r.history == stored && ShowsEntry(r, next)
      else r == e.(history := stored)
  {
    hide WellFormed, Covers, Recallable, Recalled;
    var h, k := e.history, |e.history| - 1 - e.index;
    var next := if older then k - 1 else k + 1;
    if 0 <= next < |h| {
      assert Recallable(h[k := e.line.buf], cap) by { Stored(e, cap, k); }
      FoldsShown(h[k := e.line.buf][next]) by { EntryInsertable(h[k := e.line.buf], cap, next); }
    }
  }

  lemma Stored(e: Edit, cap: nat, k: nat)
    requires Good(e, cap) && k < |e.history|
    ensures Recallable(e.history[k := e.line.buf], cap)
  {
    hide WellFormed, Covers;
  }

  lemma EntryInsertable(h: seq<seq<Byte>>, cap: nat, k: nat)
    requires Recallable(h, cap) && k < |h|
    ensures Insertable(h[k])
  {
  }

  lemma FoldsShown(t: seq<Byte>)
    requires Insertable(t)
    ensures |Recalled(t).folds| == if |t| >= 4096 || multiset(t)[10] >= 15 then 1 else 0
  {
    hide WellFormed, HistoryFold, TextsUnder, Covers, Lines;
    LinesCount(t);
  }

  ghost predicate OneAhead(t: seq<Byte>, p: nat, q: nat) {
    Boundary(t, p) && p < |t| && q == p + ClusterAfter(t[p..])
  }

  ghost predicate OneBehind(t: seq<Byte>, p: nat, q: nat) {
    Boundary(t, p) && 0 < p && q == p - ClusterBefore(t[..p])
  }

  /** Positions one cluster apart, going forward from `pos`: `k` steps, or fewer to
      the end of the text. */
  ghost predicate StepsAhead(t: seq<Byte>, pos: nat, k: nat, ps: seq<nat>) {
    && 0 < |ps| <= k + 1 && ps[0] == pos && (|ps| <= k ==> ps[|ps| - 1] == |t|)
    && forall i :: 0 <= i < |ps| - 1 ==> OneAhead(t, ps[i], ps[i + 1])
  }

  /** The same going back. */
  ghost predicate StepsBehind(t: seq<Byte>, pos: nat, k: nat, ps: seq<nat>) {
    && 0 < |ps| <= k + 1 && ps[0] == pos && (|ps| <= k ==> ps[|ps| - 1] == 0)
    && forall i :: 0 <= i < |ps| - 1 ==> OneBehind(t, ps[i], ps[i + 1])
  }

  lemma AheadStart(t: seq<Byte>, pos: nat, k: nat)
    ensures k == 0 || pos == |t| ==> StepsAhead(t, pos, k, [pos])
    ensures k == 0 || pos == 0 ==> StepsBehind(t, pos, k, [pos])
  {
  }

  lemma AheadCons(t: seq<Byte>, pos: nat, k: nat, rest: seq<nat>)
    requires k > 0 && rest != [] && OneAhead(t, pos, rest[0]) && StepsAhead(t, rest[0], k - 1, rest)
    ensures var ps := [pos] + rest;
      && StepsAhead(t, pos, k, ps) && ps[|ps| - 1] == rest[|rest| - 1]
      && ((exists i :: 0 <= i < |ps| - 1 && ps[i] < |t| && t[ps[i]] == 10) <==>
          t[pos] == 10 || exists i :: 0 <= i < |rest| - 1 && rest[i] < |t| && t[rest[i]] == 10)
  {
    hide OneAhead;
    OneAheadIn(t, pos, rest[0]);
    var ps := [pos] + rest;
    assert forall i :: 0 <= i < |rest| ==> rest[i] == ps[i + 1];
    if i :| 0 <= i < |ps| - 1 && ps[i] < |t| && t[ps[i]] == 10 { assert i > 0 ==> ps[i] == rest[i - 1]; }
    assert ps[0] == pos;
  }

  lemma OneAheadIn(t: seq<Byte>, p: nat, q: nat)
    requires OneAhead(t, p, q)
    ensures p < |t|
  {
  }

  lemma BehindCons(t: seq<Byte>, pos: nat, k: nat, rest: seq<nat>)
    requires k > 0 && pos > 0 && rest != [] && OneBehind(t, pos, rest[0]) && StepsBehind(t, rest[0], k - 1, rest)
    ensures var ps := [pos] + rest;
      && StepsBehind(t, pos, k, ps) && ps[|ps| - 1] == rest[|rest| - 1]
      && ((exists i :: 0 < i < |ps| && ps[i] < |t| && t[ps[i]] == 10) <==>
          (rest[0] < |t| && t[rest[0]] == 10) || exists i :: 0 < i < |rest| && rest[i] < |t| && t[rest[i]] == 10)
  {
    hide OneBehind;
    var ps := [pos] + rest;
    assert forall i :: 0 <= i < |rest| ==> rest[i] == ps[i + 1];
    if i :| 0 < i < |ps| && ps[i] < |t| && t[ps[i]] == 10 { assert ps[i] == rest[i - 1]; }
  }

  lemma {:induction false} AheadSteps(t: seq<Byte>, pos: nat, k: nat) returns (ps: seq<nat>)
    requires WellFormed(t) && Boundary(t, pos)
    ensures ps != [] && ps[0] == pos && StepsAhead(t, pos, k, ps) && ps[|ps| - 1] == Ahead(t, pos, k).0 <= |t|
    ensures Ahead(t, pos, k).1 <==> exists i :: 0 <= i < |ps| - 1 && ps[i] < |t| && t[ps[i]] == 10
    decreases k
  {
    hide WellFormed, ClusterAfter, Ahead, StepsAhead;
    AheadStep(t, pos, k);
    AheadStart(t, pos, k);
    BoundaryIn(t, pos);
    BoundaryIn(t, Ahead(t, pos, k).0);
    ps := [pos];
    if k > 0 && pos < |t| {
      var rest := AheadSteps(t, pos + ClusterAfter(t[pos..]), k - 1);
      ps := [pos] + rest;
      AheadCons(t, pos, k, rest);
    }
  }

  lemma {:induction false} BehindSteps(t: seq<Byte>, pos: nat, k: nat) returns (ps: seq<nat>)
    requires WellFormed(t) && Boundary(t, pos)
    ensures ps != [] && ps[0] == pos && StepsBehind(t, pos, k, ps) && ps[|ps| - 1] == Behind(t, pos, k).0
    ensures Behind(t, pos, k).1 <==> exists i :: 0 < i < |ps| && ps[i] < |t| && t[ps[i]] == 10
    decreases k
  {
    hide WellFormed, ClusterBefore, Behind, StepsBehind;
    BehindStep(t, pos, k);
    AheadStart(t, pos, k);
    BoundaryIn(t, pos);
    ps := [pos];
    if k > 0 && pos > 0 {
      var rest := BehindSteps(t, pos - ClusterBefore(t[..pos]), k - 1);
      ps := [pos] + rest;
      BehindCons(t, pos, k, rest);
    }
  }

  /** What a recalled entry hides: all of up to 192 bytes, and of more what is left
      without the first and the last 96 clusters, where a side on which one of those
      begins with a newline shows none. */
  lemma HistoryHides(t: seq<Byte>)
    requires WellFormed(t) && t != []
    ensures |t| <= 192 ==> HistoryFold(t) == Fold(0, |t|)
    ensures |t| > 192 ==> exists hs: seq<nat>, ts: seq<nat> ::
      && StepsAhead(t, 0, 96, hs) && StepsBehind(t, |t|, 96, ts)
      && var start := if exists i :: 0 <= i < |hs| - 1 && hs[i] < |t| && t[hs[i]] == 10 then 0 else hs[|hs| - 1];
         var end := if exists i :: 0 < i < |ts| && ts[i] < |t| && t[ts[i]] == 10 then |t| else ts[|ts| - 1];
         HistoryFold(t) == if start < end then Fold(start, end) else Fold(0, |t|)
  {
    hide WellFormed, Ahead, Behind, StepsAhead, StepsBehind;
    Ends(t);
    var hs := AheadSteps(t, 0, 96);
    var ts := BehindSteps(t, |t|, 96);
    assert StepsAhead(t, 0, 96, hs) && StepsBehind(t, |t|, 96, ts);
  }

  // ---- what ends the edit, and what does nothing ----

  /** Enter, Ctrl-C, Ctrl-D on an empty line, and every key that has no meaning. */
  lemma OtherKeys(e: Edit, cap: nat, ev: Event)
    requires Good(e, cap) && WellBehaved(ev)
    ensures Press(e, cap, Control(13)) == Done(e.line.buf, e.history[..|e.history| - 1])
    ensures Press(e, cap, Control(3)) == Interrupted
    ensures e.line.buf == [] ==> Press(e, cap, Control(4)) == EndOfInput(e.history[..|e.history| - 1])
    ensures ev.Control? && ev.c !in {1, 2, 3, 4, 5, 6, 8, 11, 13, 14, 16, 20, 21, 23, 127} ==> Press(e, cap, ev) == More(e)
    ensures ev.Sequence? && ev.body[|ev.body| - 1] !in {65, 66, 67, 68, 70, 72} && ev.body != ['[' as int, '3' as int, '~' as int] ==>
      Press(e, cap, ev) == More(e)
  {
    hide WellFormed, Sound, Recallable;
  }
}
