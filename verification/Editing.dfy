/** What each key does to the edited line and the history, and what every key
    and every run of keys keeps. */
module Editing {
  import opened Utf8
  import opened Grapheme
  import opened Folds
  import opened EditLine
  import opened Keys

  const NEWLINE: Byte := 10
  const HISTORY_FOLD_THRESHOLD := 4096
  const HISTORY_FOLD_LINES := 16
  const HISTORY_FOLD_CONTEXT := 96

  /** The line, the text each fold was created for, and the history, whose last
      entry stands for the line being edited. */
  datatype Edit = Edit(line: Line, texts: seq<seq<Byte>>, history: seq<seq<Byte>>, index: nat)

  ghost predicate Recallable(history: seq<seq<Byte>>, cap: nat) {
    forall i :: 0 <= i < |history| ==> Insertable(history[i]) && |history[i]| <= cap
  }

  ghost predicate Good(e: Edit, cap: nat) {
    && Sound(e.line, e.texts) && |e.line.buf| <= cap
    && e.index < |e.history| && Recallable(e.history, cap)
  }

  /** Text goes in whole or, when the buffer is full, not at all. */
  ghost function Type(e: Edit, cap: nat, t: seq<Byte>): (r: Edit)
    requires Good(e, cap) && Insertable(t)
    ensures Good(r, cap)
  {
    hide WellFormed, Covers, AfterInsert;
    TypedSound(e.line, e.texts, t);
    if |e.line.buf| + |t| > cap then e
    else e.(line := Typed(e.line, t), texts := TextsAfterInsert(e.line.folds, e.texts, e.line.pos))
  }

  ghost function Erase(e: Edit, cap: nat, at: nat, n: nat): (r: Edit)
    requires Good(e, cap) && Boundary(e.line.buf, at) && Boundary(e.line.buf, at + n)
    ensures Good(r, cap)
  {
    hide WellFormed, Covers, AfterDelete;
    ErasedSound(e.line, e.texts, at, n);
    e.(line := Erased(e.line, at, n), texts := TextsAfterDelete(e.line.folds, e.texts, at, n))
  }

  ghost function MoveTo(e: Edit, cap: nat, pos: nat): (r: Edit)
    requires Good(e, cap) && Boundary(e.line.buf, pos)
    ensures Good(r, cap)
  {
    e.(line := e.line.(pos := pos))
  }

  ghost function Left(e: Edit, cap: nat): (r: Edit)
    requires Good(e, cap)
    ensures Good(r, cap)
  {
    hide WellFormed, PrevLen;
    PrevLenBoundary(e.line, e.texts, e.line.pos);
    if e.line.pos > 0 then MoveTo(e, cap, e.line.pos - PrevLen(e.line, e.line.pos)) else e
  }

  ghost function Right(e: Edit, cap: nat): (r: Edit)
    requires Good(e, cap)
    ensures Good(r, cap)
  {
    hide WellFormed, NextLen;
    NextLenBoundary(e.line, e.texts, e.line.pos);
    if e.line.pos < |e.line.buf| then MoveTo(e, cap, e.line.pos + NextLen(e.line, e.line.pos)) else e
  }

  ghost function Home(e: Edit, cap: nat): (r: Edit)
    requires Good(e, cap)
    ensures Good(r, cap)
  {
    Ends(e.line.buf);
    MoveTo(e, cap, 0)
  }

  ghost function End(e: Edit, cap: nat): (r: Edit)
    requires Good(e, cap)
    ensures Good(r, cap)
  {
    Ends(e.line.buf);
    MoveTo(e, cap, |e.line.buf|)
  }

  ghost function Backspace(e: Edit, cap: nat): (r: Edit)
    requires Good(e, cap)
    ensures Good(r, cap)
  {
    hide WellFormed, PrevLen;
    PrevLenBoundary(e.line, e.texts, e.line.pos);
    var n := PrevLen(e.line, e.line.pos);
    if e.line.pos > 0 then Erase(e, cap, e.line.pos - n, n) else e
  }

  ghost function Delete(e: Edit, cap: nat): (r: Edit)
    requires Good(e, cap)
    ensures Good(r, cap)
  {
    hide WellFormed, NextLen;
    NextLenBoundary(e.line, e.texts, e.line.pos);
    if e.line.pos < |e.line.buf| then Erase(e, cap, e.line.pos, NextLen(e.line, e.line.pos)) else e
  }

  ghost function DeleteWord(e: Edit, cap: nat): (r: Edit)
    requires Good(e, cap)
    ensures Good(r, cap)
  {
    hide WellFormed, Covers, WordStart, Boundary;
    var start := WordStart(e.line, e.texts);
    Erase(e, cap, start, e.line.pos - start)
  }

  ghost function KillRest(e: Edit, cap: nat): (r: Edit)
    requires Good(e, cap)
    ensures Good(r, cap)
  {
    Ends(e.line.buf);
    Erase(e, cap, e.line.pos, |e.line.buf| - e.line.pos)
  }

  lemma EmptySound()
    ensures Sound(Line([], 0, []), []) && Insertable([])
  {
    assert WellFormed([]);
  }

  ghost function KillLine(e: Edit, cap: nat): (r: Edit)
    requires Good(e, cap)
    ensures Good(r, cap)
  {
    EmptySound();
    e.(line := Line([], 0, []), texts := [])
  }

  const SWAP_MAX := 32

  /** Ctrl-T: the clusters around the cursor trade places unless one is too long
      or lies in a fold. */
  ghost function Swap(e: Edit, cap: nat): (r: Edit)
    requires Good(e, cap)
    ensures Good(r, cap)
  {
    hide WellFormed, NextLen, PrevLen, Covers;
    var l := e.line;
    PrevLenBoundary(l, e.texts, l.pos);
    NextLenBoundary(l, e.texts, l.pos);
    var prev, next := PrevLen(l, l.pos), NextLen(l, l.pos);
    if l.pos == 0 || l.pos == |l.buf| || prev > SWAP_MAX || next > SWAP_MAX || !Clear(l.folds, l.pos - prev, l.pos + next) then e
    else
      SwappedSound(l, e.texts, prev, next);
      e.(line := Swapped(l, prev, next))
  }

  lemma SwapIs(e: Edit, cap: nat)
    requires Good(e, cap)
    ensures Boundary(e.line.buf, e.line.pos)
    ensures
      var l := e.line;
      var prev, next := PrevLen(l, l.pos), NextLen(l, l.pos);
      && 0 <= prev <= l.pos && 0 <= next && l.pos + next <= |l.buf|
      && Swap(e, cap) ==
           if l.pos == 0 || l.pos == |l.buf| || prev > SWAP_MAX || next > SWAP_MAX || !Clear(l.folds, l.pos - prev, l.pos + next)
           then e else e.(line := Swapped(l, prev, next))
  {
    hide WellFormed, NextLen, PrevLen, Covers, Clear;
    PrevLenBoundary(e.line, e.texts, e.line.pos);
    NextLenBoundary(e.line, e.texts, e.line.pos);
  }

  /** Logical lines of a text. */
  function Lines(t: seq<Byte>): (n: nat)
    ensures n > 0
  {
    if t == [] then 1 else Lines(t[1..]) + (if t[0] == NEWLINE then 1 else 0)
  }

  /** One more than the newlines. */
  lemma {:induction false} LinesCount(t: seq<Byte>)
    ensures Lines(t) == 1 + multiset(t)[10]
  {
    if t != [] {
      LinesCount(t[1..]);
      assert t == [t[0]] + t[1..];
    }
  }

  predicate ShouldFoldHistory(t: seq<Byte>) {
    |t| >= HISTORY_FOLD_THRESHOLD || Lines(t) >= HISTORY_FOLD_LINES
  }

  /** Position `k` clusters further on, and whether one of them begins with a newline. */
  ghost function Ahead(t: seq<Byte>, pos: nat, k: nat): (r: (nat, bool))
    requires WellFormed(t) && Boundary(t, pos)
    ensures Boundary(t, r.0) && pos <= r.0
    decreases k
  {
    hide WellFormed, ClusterAfter;
    if k == 0 || pos == |t| then (pos, false)
    else
      ClusterAfterBoundary(t[pos..]);
      var n := ClusterAfter(t[pos..]);
      BoundaryAfter(t, pos, n);
      var rest := Ahead(t, pos + n, k - 1);
      (rest.0, t[pos] == NEWLINE || rest.1)
  }

  ghost function Behind(t: seq<Byte>, pos: nat, k: nat): (r: (nat, bool))
    requires WellFormed(t) && Boundary(t, pos)
    ensures Boundary(t, r.0) && r.0 <= pos
    decreases k
  {
    hide WellFormed, ClusterBefore;
    if k == 0 || pos == 0 then (pos, false)
    else
      ClusterBeforeBoundary(t[..pos]);
      var n := ClusterBefore(t[..pos]);
      BoundaryBefore(t, pos, n);
      var rest := Behind(t, pos - n, k - 1);
      (rest.0, t[pos - n] == NEWLINE || rest.1)
  }

  lemma AheadStep(t: seq<Byte>, pos: nat, k: nat)
    requires WellFormed(t) && Boundary(t, pos)
    ensures k == 0 || pos == |t| ==> Ahead(t, pos, k) == (pos, false)
    ensures k > 0 && pos < |t| ==>
      var n := ClusterAfter(t[pos..]);
      && n > 0 && Boundary(t, pos + n)
      && var rest := Ahead(t, pos + n, k - 1);
         Ahead(t, pos, k) == (rest.0, t[pos] == NEWLINE || rest.1)
  {
    hide WellFormed, ClusterAfter;
    ClusterAfterBoundary(t[pos..]);
    if k > 0 && pos < |t| { BoundaryAfter(t, pos, ClusterAfter(t[pos..])); }
  }

  lemma BehindStep(t: seq<Byte>, pos: nat, k: nat)
    requires WellFormed(t) && Boundary(t, pos)
    ensures k == 0 || pos == 0 ==> Behind(t, pos, k) == (pos, false)
    ensures k > 0 && pos > 0 ==>
      var n := ClusterBefore(t[..pos]);
      && 0 < n <= pos && Boundary(t, pos - n)
      && var rest := Behind(t, pos - n, k - 1);
         Behind(t, pos, k) == (rest.0, t[pos - n] == NEWLINE || rest.1)
  {
    hide WellFormed, ClusterBefore;
    ClusterBeforeBoundary(t[..pos]);
    if k > 0 && pos > 0 { BoundaryBefore(t, pos, ClusterBefore(t[..pos])); }
  }

  /** The range a recalled entry hides: all but 96 clusters of context on either
      side, without context that would show a newline. */
  ghost function HistoryFold(t: seq<Byte>): (f: Fold)
    requires WellFormed(t) && t != []
    ensures 0 <= f.start < f.end <= |t| && Boundary(t, f.start) && Boundary(t, f.end)
  {
    hide WellFormed;
    Ends(t);
    if |t| <= HISTORY_FOLD_CONTEXT * 2 then Fold(0, |t|)
    else
      var head, tail := Ahead(t, 0, HISTORY_FOLD_CONTEXT), Behind(t, |t|, HISTORY_FOLD_CONTEXT);
      var start, end := if head.1 then 0 else head.0, if tail.1 then |t| else tail.0;
      if start >= end then Fold(0, |t|) else Fold(start, end)
  }

  /** The texts under a list of ranges inside the buffer. */
  function TextsUnder(buf: seq<Byte>, fs: seq<Fold>): (r: seq<seq<Byte>>) {
    if fs == [] then []
    else (if 0 <= fs[0].start <= fs[0].end <= |buf| then [buf[fs[0].start..fs[0].end]] else [[]]) + TextsUnder(buf, fs[1..])
  }

  lemma OneFold(t: seq<Byte>, f: Fold)
    requires 0 <= f.start < f.end <= |t| && WellFormed(t[..f.start]) && WellFormed(t[..f.end])
    ensures Covers(t, [f], TextsUnder(t, [f]), 0)
  {
    assert [f][1..] == [];
    assert TextsUnder(t, [f]) == [t[f.start..f.end]];
    assert TextsUnder(t, [f])[1..] == [];
  }

  /** The cursor may enter a fold: a combining mark typed behind one forms a cluster
      with the fold's last character, and stepping back goes over both. */
  lemma CursorEntersFold(before: seq<Byte>, p: int, m: int)
    requires before != [] && Insertable(before) && Scalar(p) && p != 0 && Scalar(m)
    requires Extends(m) && !Extends(p) && !RegionalIndicator(p)
    requires var cps := CodePoints(before); !Zwj(cps[|cps| - 1])
    ensures var t := before + Encode(p);
      var l := Typed(Line(t, |t|, [Fold(0, |t|)]), Encode(m));
      && Sound(l, [t]) && PrevLen(l, l.pos) == |Encode(p)| + |Encode(m)|
      && l.pos - PrevLen(l, l.pos) == |before| && !Clear(l.folds, |before|, |before|)
  {
    assert m != 0;
    hide Encode, Decode, WellFormed, Extends, RegionalIndicator, Zwj, ClusterBefore, Covers;
    var t := before + Encode(p);
    var f := Fold(0, |t|);
    var l0 := Line(t, |t|, [f]);
    EncodingInsertable(p);
    EncodingInsertable(m);
    JoinBoundary(before, Encode(p));
    Ends(t);
    OneFold(t, f);
    assert TextsUnder(t, [f]) == [t] by { assert t[0..|t|] == t && [f][1..] == []; }
    TypedSound(l0, [t], Encode(m));
    CodePointsEncode(before);
    MarkJoins(CodePoints(before), p, m);
    var l := Typed(l0, Encode(m));
    assert [f][1..] == [] && [t][1..] == [];
    assert l.folds == [f];
    assert TextsAfterInsert([f], [t], |t|) == [t];
    assert l.buf[..l.pos] == t + Encode(m);
    assert FoldTo([f], l.pos) == 0;
  }

  /** The folds a history entry is shown with. */
  ghost function HistoryFolds(t: seq<Byte>): (fs: seq<Fold>)
    requires WellFormed(t)
    ensures |fs| <= 1 && Covers(t, fs, TextsUnder(t, fs), 0)
  {
    hide WellFormed, HistoryFold;
    if t != [] && ShouldFoldHistory(t) then
      OneFold(t, HistoryFold(t));
      [HistoryFold(t)]
    else []
  }

  /** A recalled entry: the whole text, the cursor at its end, at most one fold. */
  ghost function Recalled(t: seq<Byte>): (l: Line)
    requires Insertable(t)
    ensures l.buf == t && l.pos == |t| && Sound(l, TextsUnder(t, l.folds))
  {
    hide WellFormed, HistoryFolds, TextsUnder, Covers;
    Ends(t);
    Line(t, |t|, HistoryFolds(t))
  }

  /** History recall: the line is stored where it came from, then the entry one
      step older or newer is shown, if there is one. */
  ghost function Recall(e: Edit, cap: nat, older: bool): (r: Edit)
    requires Good(e, cap)
    ensures Good(r, cap)
  {
    hide WellFormed, Recalled, Covers;
    var h := e.history;
    if |h| <= 1 then e
    else
      var stored := h[|h| - 1 - e.index := e.line.buf];
      var kept := e.(history := stored);
      if (older && e.index + 1 >= |h|) || (!older && e.index == 0) then kept
      else
        var index := if older then e.index + 1 else e.index - 1;
        var l := Recalled(stored[|h| - 1 - index]);
        Edit(l, TextsUnder(l.buf, l.folds), stored, index)
  }

  /** Going to a neighbouring entry and coming back finds the line as it was left,
      but for the cursor and the folds. */
  lemma RecallReturns(e: Edit, cap: nat, older: bool)
    requires Good(e, cap)
    requires if older then e.index + 1 < |e.history| else e.index > 0
    ensures var back := Recall(Recall(e, cap, older), cap, !older);
      && back.line.buf == e.line.buf && back.index == e.index && back.line.pos == |e.line.buf|
      && back.history == e.history[|e.history| - 1 - e.index := e.line.buf]
  {
    hide WellFormed, Recalled, Covers;
    var n := |e.history|;
    var stored := e.history[n - 1 - e.index := e.line.buf];
    var there := Recall(e, cap, older);
    assert there.line.buf == stored[n - 1 - there.index];
    assert stored[n - 1 - there.index := there.line.buf] == stored;
  }

  datatype Outcome = More(next: Edit) | Done(text: seq<Byte>, left: seq<seq<Byte>>) | Interrupted | EndOfInput(left: seq<seq<Byte>>)

  const PASTE: seq<Byte> := ['[' as int, '2' as int, '0' as int, '0' as int, '~' as int]
  const DELETE: seq<Byte> := ['[' as int, '3' as int, '~' as int]

  /** One key.  The paste introducer only starts collecting. */
  ghost function Press(e: Edit, cap: nat, ev: Event): (r: Outcome)
    requires Good(e, cap) && WellBehaved(ev)
    ensures r.More? ==> Good(r.next, cap)
    ensures r.Done? ==> r.text == e.line.buf && r.left == e.history[..|e.history| - 1]
  {
    hide WellFormed, Good, Left, Right, Home, End, Backspace, Delete, DeleteWord, KillRest, KillLine, Swap, Recall, Type;
    match ev
    case Text(t) => More(Type(e, cap, t))
    case Control(c) =>
      if c == 13 then Done(e.line.buf, DropLast(e.history))
      else if c == 3 then Interrupted
      else if c == 8 || c == RUBOUT then More(Backspace(e, cap))
      else if c == 4 then if e.line.buf == [] then EndOfInput(DropLast(e.history)) else More(Delete(e, cap))
      else if c == 20 then More(Swap(e, cap))
      else if c == 2 then More(Left(e, cap))
      else if c == 6 then More(Right(e, cap))
      else if c == 16 then More(Recall(e, cap, true))
      else if c == 14 then More(Recall(e, cap, false))
      else if c == 21 then More(KillLine(e, cap))
      else if c == 11 then More(KillRest(e, cap))
      else if c == 1 then More(Home(e, cap))
      else if c == 5 then More(End(e, cap))
      else if c == 23 then More(DeleteWord(e, cap))
      else More(e)
    case Sequence(b) =>
      if b == DELETE then More(Delete(e, cap))
      else if b == PASTE then More(e)
      else
        var last := b[|b| - 1];
        if last == 'A' as int then More(Recall(e, cap, true))
        else if last == 'B' as int then More(Recall(e, cap, false))
        else if last == 'C' as int then More(Right(e, cap))
        else if last == 'D' as int then More(Left(e, cap))
        else if last == 'H' as int then More(Home(e, cap))
        else if last == 'F' as int then More(End(e, cap))
        else More(e)
  }

  function DropLast(h: seq<seq<Byte>>): (r: seq<seq<Byte>>)
    ensures h != [] ==> r == h[..|h| - 1]
  {
    if h == [] then [] else h[..|h| - 1]
  }

  ghost predicate AllBehave(evs: seq<Event>) {
    forall i :: 0 <= i < |evs| ==> WellBehaved(evs[i])
  }

  /** Keys one after the other until one ends the edit. */
  ghost function PressAll(e: Edit, cap: nat, evs: seq<Event>): (r: Outcome)
    requires Good(e, cap) && AllBehave(evs)
    ensures r.More? ==> Good(r.next, cap)
    decreases |evs|
  {
    if evs == [] then More(e)
    else
      var first := Press(e, cap, evs[0]);
      if first.More? then PressAll(first.next, cap, evs[1..]) else first
  }

  lemma {:induction false} PressAllAppend(e: Edit, cap: nat, a: seq<Event>, b: seq<Event>)
    requires Good(e, cap) && AllBehave(a) && AllBehave(b)
    ensures AllBehave(a + b)
    ensures var first := PressAll(e, cap, a);
      PressAll(e, cap, a + b) == if first.More? then PressAll(first.next, cap, b) else first
    decreases |a|
  {
    hide WellFormed, Good, Press, WellBehaved;
    if a == [] {
      assert a + b == b;
    } else {
      var first := Press(e, cap, a[0]);
      assert (a + b)[0] == a[0] && (a + b)[1..] == a[1..] + b;
      if first.More? { PressAllAppend(first.next, cap, a[1..], b); }
    }
  }

  /** Insertions in a row are one insertion. */
  lemma {:induction false} AfterInsertTwice(fs: seq<Fold>, texts: seq<seq<Byte>>, pos: nat, a: nat, b: nat, lo: int, len: int)
    requires |texts| == |fs| && Layout(fs, lo, len)
    ensures AfterInsert(AfterInsert(fs, pos, a), pos + a, b) == AfterInsert(fs, pos, a + b)
    ensures var ta := TextsAfterInsert(fs, texts, pos);
      |ta| == |AfterInsert(fs, pos, a)| && TextsAfterInsert(AfterInsert(fs, pos, a), ta, pos + a) == ta
  {
    if fs != [] {
      AfterInsertTwice(fs[1..], texts[1..], pos, a, b, fs[0].end, len);
      var r, rt := AfterInsert(fs[1..], pos, a), TextsAfterInsert(fs[1..], texts[1..], pos);
      if fs[0].start < pos < fs[0].end {
        assert [] + rt == rt;
      } else {
        var f := if pos <= fs[0].start then Fold(fs[0].start + a, fs[0].end + a) else fs[0];
        assert AfterInsert(fs, pos, a) == [f] + r && ([f] + r)[1..] == r;
        assert TextsAfterInsert(fs, texts, pos) == [texts[0]] + rt && ([texts[0]] + rt)[1..] == rt;
      }
    }
  }

  lemma TypeTwice(e: Edit, cap: nat, a: seq<Byte>, b: seq<Byte>)
    requires Good(e, cap) && Insertable(a) && Insertable(b) && |e.line.buf| + |a| + |b| <= cap
    ensures Insertable(a + b)
    ensures Type(Type(e, cap, a), cap, b) == Type(e, cap, a + b)
  {
    hide WellFormed, Covers, AfterInsert, TextsAfterInsert, Inserted, Layout, Recallable;
    WellFormedAppend(a, b);
    TypedTwice(e.line, e.texts, a, b);
  }

  lemma TypedTwice(l: Line, texts: seq<seq<Byte>>, a: seq<Byte>, b: seq<Byte>)
    requires l.pos <= |l.buf| && Covers(l.buf, l.folds, texts, 0)
    ensures |texts| == |l.folds| && Typed(Typed(l, a), b) == Typed(l, a + b)
    ensures var ta := TextsAfterInsert(l.folds, texts, l.pos);
      |ta| == |Typed(l, a).folds| && TextsAfterInsert(Typed(l, a).folds, ta, Typed(l, a).pos) == ta
  {
    hide WellFormed, Covers, AfterInsert, TextsAfterInsert, Inserted, Layout;
    CoversLayout(l.buf, l.folds, texts, 0);
    AfterInsertTwice(l.folds, texts, l.pos, |a|, |b|, 0, |l.buf|);
    InsertedTwice(l.buf, l.pos, a, b);
  }

  lemma InsertedTwice(buf: seq<Byte>, pos: nat, a: seq<Byte>, b: seq<Byte>)
    requires pos <= |buf|
    ensures Inserted(Inserted(buf, pos, a), pos + |a|, b) == Inserted(buf, pos, a + b)
  {
    var x := Inserted(buf, pos, a);
    assert x[..pos + |a|] == buf[..pos] + a && x[pos + |a|..] == buf[pos..];
  }

  lemma {:induction false} PrintableBehaves(cps: seq<int>)
    requires AllPrintable(cps)
    ensures AllBehave(Texts(cps)) && Insertable(EncodeAll(cps))
  {
    EmptySound();
    if cps != [] {
      PrintableBehaves(cps[1..]);
      EncodingInsertable(cps[0]);
      WellFormedAppend(Encode(cps[0]), EncodeAll(cps[1..]));
    }
  }

  /** Typing any text without control characters, however its bytes arrive, puts
      exactly that text at the cursor. */
  lemma {:induction false} TypingInserts(e: Edit, cap: nat, cps: seq<int>)
    requires Good(e, cap) && AllPrintable(cps) && cps != [] && |e.line.buf| + |EncodeAll(cps)| <= cap
    ensures AssembleAll([], EncodeAll(cps)) == Assembled([], Texts(cps))
    ensures AllBehave(Texts(cps)) && Insertable(EncodeAll(cps))
    ensures PressAll(e, cap, Texts(cps)) == More(Type(e, cap, EncodeAll(cps)))
    decreases |cps|
  {
    hide WellFormed, Encode, Sound, Recallable, AfterInsert, TextsAfterInsert, Printable;
    AssembleText(cps);
    PrintableBehaves(cps);
    var c, rest := Encode(cps[0]), EncodeAll(cps[1..]);
    PrintableBehaves(cps[1..]);
    assert Texts(cps)[0] == Text(c) && Texts(cps)[1..] == Texts(cps[1..]);
    assert WellBehaved(Texts(cps)[0]);
    PressText(e, cap, c);
    if cps[1..] == [] {
      assert c + rest == c;
    } else {
      TypeTwice(e, cap, c, rest);
      TypingInserts(Type(e, cap, c), cap, cps[1..]);
    }
  }

  lemma PressText(e: Edit, cap: nat, t: seq<Byte>)
    requires Good(e, cap) && Insertable(t) && |e.line.buf| + |t| <= cap
    ensures Press(e, cap, Text(t)) == More(Type(e, cap, t)) && |Type(e, cap, t).line.buf| == |e.line.buf| + |t|
  {
  }
}
