/** The line editor: fields updated in place by one handler per key, each proved
    against what the key does to the line. */
module Editor {
  import opened Utf8
  import opened Grapheme
  import opened Folds
  import opened EditLine
  import opened Keys
  import opened Editing
  import opened Paste
  import opened Typing

  datatype Reply = EditMore | Finished(text: seq<Byte>) | Cancelled | EndOfFile

  class Editor {
    var buf: seq<Byte>
    var pos: nat
    var folds: seq<Fold>
    var buflen: nat
    var buflenMax: nat
    var history: seq<seq<Byte>>
    var index: nat
    var pending: seq<Byte>
    var pasteActive: bool
    var pasteBuf: seq<Byte>
    var pasteMatch: nat
    var pasteOverflowed: bool
    var queued: seq<Byte>
    /** What each fold covered when it was made. */
    ghost var texts: seq<seq<Byte>>
    /** Every byte read since the paste began. */
    ghost var seen: seq<Byte>

    ghost function Now(): Edit
      reads this
    {
      Edit(EditLine.Line(buf, pos, folds), texts, history, index)
    }

    /** The longest line: a caller's buffer is fixed, the editor's own one grows. */
    function Limit(): nat
      reads this
    {
      if buflenMax == 0 then buflen else buflenMax
    }

    predicate Sized()
      reads this
    {
      |buf| <= buflen && (buflenMax == 0 || 16 <= buflenMax) && buflen <= Limit()
    }

    ghost predicate Fit()
      reads this
    {
      Sized() && Good(Now(), Limit())
    }

    ghost predicate Pasting()
      reads this
    {
      && Matching(seen, pasteMatch)
      && Collected(seen[..|seen| - pasteMatch], pasteBuf, pasteOverflowed, Room(Now().line, Limit()))
    }

    ghost predicate Valid()
      reads this
    {
      && Fit() && Pending(pending)
      && if pasteActive then Pasting() && pending == []
         else seen == [] && pasteBuf == [] && pasteMatch == 0 && !pasteOverflowed
    }

    /** linenoiseEditStart over a history whose entries fit the buffer. */
    constructor (capacity: nat, growTo: nat, past: seq<seq<Byte>>)
      requires capacity > 0 && (growTo == 0 || (16 <= growTo && capacity <= growTo))
      requires Recallable(past, if growTo == 0 then capacity - 1 else growTo)
      ensures Valid() && buf == [] && pos == 0 && folds == [] && queued == []
      ensures history == past + [[]] && index == 0 && !pasteActive && Limit() == if growTo == 0 then capacity - 1 else growTo
    {
      EmptySound();
      buf, pos, folds, texts := [], 0, [], [];
      buflen, buflenMax := capacity - 1, growTo;
      history, index := past + [[]], 0;
      pending, queued := [], [];
      pasteActive, pasteBuf, pasteMatch, pasteOverflowed, seen := false, [], 0, false, [];
    }

    /** linenoiseEditGrow: doubling, or nothing when the buffer is fixed. */
    method Grow(needed: nat) returns (ok: bool)
      requires Sized()
      modifies this`buflen
      ensures Sized() && Limit() == old(Limit())
      ensures ok == (needed <= Limit()) && (ok ==> needed <= buflen)
    {
      if needed <= buflen { return true; }
      if buflenMax == 0 || needed > buflenMax { return false; }
      var newlen := if buflen > 0 then buflen else 16;
      while newlen < needed
        invariant 0 < newlen <= buflenMax
        decreases needed - newlen
      {
        if newlen > buflenMax / 2 {
          newlen := buflenMax;
          break;
        }
        newlen := newlen * 2;
      }
      if newlen < needed { return false; }
      buflen := newlen;
      return true;
    }

    method FoldRemove(j: nat)
      requires j < |folds|
      modifies this`folds
      ensures folds == old(folds[..j] + folds[j + 1..])
    {
      folds := folds[..j] + folds[j + 1..];
    }

    method AdjustAfterInsert(at: nat, len: nat)
      modifies this`folds
      ensures folds == AfterInsert(old(folds), at, len)
    {
      hide AfterInsert;
      ghost var was := folds;
      var j := 0;
      assert was[0..] == was;
      while j < |folds|
        invariant j <= |folds|
        invariant folds[..j] + AfterInsert(folds[j..], at, len) == AfterInsert(was, at, len)
        decreases |folds| - j
      {
        ghost var done, todo := folds[..j], folds[j..];
        var f := folds[j];
        InsertStep(todo, at, len);
        if at <= f.start {
          folds := folds[j := Fold(f.start + len, f.end + len)];
          j := j + 1;
        } else if at < f.end {
          FoldRemove(j);
        } else {
          j := j + 1;
        }
        assert folds[j..] == todo[1..];
        assert j > |done| ==> folds[..j] == done + [folds[j - 1]];
      }
      assert folds[j..] == [] && folds[..j] == folds;
      InsertStep([], at, len);
    }

    method AdjustAfterDelete(at: nat, len: nat)
      modifies this`folds
      ensures folds == AfterDelete(old(folds), at, len)
    {
      hide AfterDelete;
      ghost var was := folds;
      var j := 0;
      assert was[0..] == was;
      while j < |folds|
        invariant j <= |folds|
        invariant folds[..j] + AfterDelete(folds[j..], at, len) == AfterDelete(was, at, len)
        decreases |folds| - j
      {
        ghost var done, todo := folds[..j], folds[j..];
        var f := folds[j];
        DeleteStep(todo, at, len);
        if at + len <= f.start {
          folds := folds[j := Fold(f.start - len, f.end - len)];
          j := j + 1;
        } else if at >= f.end {
          j := j + 1;
        } else {
          FoldRemove(j);
        }
        assert folds[j..] == todo[1..];
        assert j > |done| ==> folds[..j] == done + [folds[j - 1]];
      }
      assert folds[j..] == [] && folds[..j] == folds;
      DeleteStep([], at, len);
    }

    /** linenoiseEditInsert: the text goes in at the cursor if the buffer can hold it. */
    method Insert(t: seq<Byte>) returns (ok: bool)
      requires Fit() && Insertable(t)
      modifies this`buf, this`pos, this`folds, this`buflen, this`texts
      ensures Fit() && Limit() == old(Limit())
      ensures ok == (old(|buf|) + |t| <= Limit())
      ensures Now() == Type(old(Now()), Limit(), t)
    {
      hide WellFormed, Covers, AfterInsert, TextsAfterInsert, Insertable, Recallable;
      ok := Grow(|buf| + |t|);
      if !ok { return; }
      var at := pos;
      buf := buf[..pos] + t + buf[pos..];
      pos := pos + |t|;
      texts := Type(old(Now()), Limit(), t).texts;
      AdjustAfterInsert(at, |t|);
    }

    /** The bytes [at, at + n) go, and the cursor is left at `at`. */
    method Remove(at: nat, n: nat)
      requires Fit() && Boundary(buf, at) && Boundary(buf, at + n)
      modifies this`buf, this`pos, this`folds, this`texts
      ensures Fit() && Now() == Erase(old(Now()), Limit(), at, n)
    {
      hide WellFormed, Covers, AfterDelete, TextsAfterDelete, Recallable;
      texts := Erase(Now(), Limit(), at, n).texts;
      AdjustAfterDelete(at, n);
      buf := buf[..at] + buf[at + n..];
      pos := at;
    }

    /** linenoiseEditNextLen, with the renderer's check of each range. */
    method NextLenAt(p: nat) returns (n: nat)
      requires Fit() && Boundary(buf, p)
      ensures n == NextLen(Now().line, p) && Boundary(buf, p + n) && (p < |buf| ==> n > 0)
    {
      hide WellFormed, ClusterAfter, Good, Covers;
      assert Sound(Now().line, texts) by { Apart(); }
      NextLenBoundary(Now().line, texts, p);
      CoversLayout(buf, folds, texts, 0);
      var j := 0;
      assert folds[0..] == folds;
      while j < |folds|
        invariant j <= |folds| && FoldFrom(folds, p) == FoldFrom(folds[j..], p)
        invariant exists lo :: 0 <= lo && Layout(folds[j..], lo, |buf|)
      {
        assert folds[j..][1..] == folds[j + 1..];
        var f := folds[j];
        if f.start < f.end <= |buf| && p == f.start { return f.end - f.start; }
        j := j + 1;
      }
      n := StepForward(buf, p);
    }

    lemma Within(p: int)
      requires Boundary(buf, p)
      ensures 0 <= p <= |buf| && Now().line.buf == buf
    {
    }

    lemma Apart()
      requires Fit()
      ensures Sound(Now().line, texts)
    {
    }

    method PrevLenAt(p: nat) returns (n: nat)
      requires Fit() && Boundary(buf, p)
      ensures n == PrevLen(Now().line, p) && n <= p && Boundary(buf, p - n) && (p > 0 ==> n > 0)
    {
      hide WellFormed, ClusterBefore, Good, Covers;
      assert Sound(Now().line, texts) by { Apart(); }
      PrevLenBoundary(Now().line, texts, p);
      CoversLayout(buf, folds, texts, 0);
      var j := 0;
      assert folds[0..] == folds;
      while j < |folds|
        invariant j <= |folds| && FoldTo(folds, p) == FoldTo(folds[j..], p)
        invariant exists lo :: 0 <= lo && Layout(folds[j..], lo, |buf|)
      {
        assert folds[j..][1..] == folds[j + 1..];
        var f := folds[j];
        if f.start < f.end <= |buf| && p == f.end { return f.end - f.start; }
        j := j + 1;
      }
      n := StepBack(buf, p);
    }

    method MoveLeft()
      requires Fit()
      modifies this`pos
      ensures Fit() && Now() == Left(old(Now()), Limit())
    {
      hide WellFormed, PrevLen, Covers, Recallable;
      if pos > 0 {
        var n := PrevLenAt(pos);
        pos := pos - n;
      }
    }

    method MoveRight()
      requires Fit()
      modifies this`pos
      ensures Fit() && Now() == Right(old(Now()), Limit())
    {
      hide WellFormed, NextLen, Covers, Recallable;
      if pos != |buf| {
        var n := NextLenAt(pos);
        pos := pos + n;
      }
    }

    method MoveHome()
      requires Fit()
      modifies this`pos
      ensures Fit() && Now() == Home(old(Now()), Limit())
    {
      hide WellFormed, Covers, Recallable;
      Ends(buf);
      pos := 0;
    }

    method MoveEnd()
      requires Fit()
      modifies this`pos
      ensures Fit() && Now() == End(old(Now()), Limit())
    {
      hide WellFormed, Covers, Recallable;
      Ends(buf);
      pos := |buf|;
    }

    method DeleteRight()
      requires Fit()
      modifies this`buf, this`pos, this`folds, this`texts
      ensures Fit() && Now() == Delete(old(Now()), Limit())
    {
      hide WellFormed, NextLen, Covers, Recallable, Erase;
      if |buf| > 0 && pos < |buf| {
        var n := NextLenAt(pos);
        Remove(pos, n);
      }
    }

    method DeleteLeft()
      requires Fit()
      modifies this`buf, this`pos, this`folds, this`texts
      ensures Fit() && Now() == Backspace(old(Now()), Limit())
    {
      hide WellFormed, PrevLen, Covers, Recallable, Erase;
      if pos > 0 && |buf| > 0 {
        var n := PrevLenAt(pos);
        Remove(pos - n, n);
      }
    }

    /** One of linenoiseEditDeletePrevWord's two backward scans. */
    method Skip(from: nat, spaces: bool) returns (p: nat)
      requires Fit() && Boundary(buf, from)
      ensures p <= from && Boundary(buf, p) && p == SkipBack(Now().line, texts, from, spaces)
    {
      hide *;
      ghost var line := Now().line;
      Apart();
      Within(from);
      p := from;
      while p > 0 && (buf[p - 1] == SPACE) == spaces
        invariant p <= from && p <= |buf| && Boundary(buf, p)
        invariant SkipBack(line, texts, p, spaces) == SkipBack(line, texts, from, spaces)
      {
        SkipBackStep(line, texts, p, spaces);
        var n := PrevLenAt(p);
        p := p - n;
        Within(p);
      }
      SkipBackStep(line, texts, p, spaces);
    }

    method DeletePrevWord()
      requires Fit()
      modifies this`buf, this`pos, this`folds, this`texts
      ensures Fit() && Now() == DeleteWord(old(Now()), Limit())
    {
      hide WellFormed, Covers, Recallable, Erase, SkipBack;
      var start := Skip(pos, true);
      start := Skip(start, false);
      Remove(start, pos - start);
    }

    method KillToEnd()
      requires Fit()
      modifies this`buf, this`pos, this`folds, this`texts
      ensures Fit() && Now() == KillRest(old(Now()), Limit())
    {
      hide WellFormed, Covers, Recallable, Erase;
      Ends(buf);
      Remove(pos, |buf| - pos);
    }

    method KillWhole()
      requires Fit()
      modifies this`buf, this`pos, this`folds, this`texts
      ensures Fit() && Now() == KillLine(old(Now()), Limit())
    {
      hide WellFormed, Recallable;
      EmptySound();
      buf, pos, folds, texts := [], 0, [], [];
    }

    method OverlapsFold(at: nat, len: nat) returns (r: bool)
      ensures r == !Clear(folds, at, at + len)
    {
      var end := at + len;
      for j := 0 to |folds|
        invariant forall i :: 0 <= i < j ==> folds[i].end <= at || end <= folds[i].start
      {
        if end > folds[j].start && at < folds[j].end { return true; }
      }
      return false;
    }

    /** Ctrl-T. */
    method SwapClusters()
      requires Fit()
      modifies this`buf, this`pos
      ensures Fit() && Now() == Swap(old(Now()), Limit())
    {
      hide WellFormed, Covers, Recallable, NextLen, PrevLen, Clear, Swap, Boundary, Good;
      SwapIs(Now(), Limit());
      if pos > 0 && pos < |buf| {
        var prev := PrevLenAt(pos);
        var next := NextLenAt(pos);
        var start := pos - prev;
        if prev > SWAP_MAX || next > SWAP_MAX { return; }
        var overlaps := OverlapsFold(start, prev + next);
        if overlaps { return; }
        buf := buf[..start] + buf[pos..pos + next] + buf[start..pos] + buf[pos + next..];
        if pos + next <= |buf| { pos := pos + next; }
      }
    }

    /** linenoiseFoldAdd: shift later ranges up, then put the new one in. */
    method FoldAdd(f: Fold)
      requires Layout(folds, 0, |buf|) && 0 <= f.start
      modifies this`folds
      ensures folds == if f.start >= f.end || |old(folds)| == MAX_FOLDS then old(folds) else Add(old(folds), f)
    {
      hide Layout, Add;
      if f.start >= f.end || |folds| == MAX_FOLDS { return; }
      ghost var was := folds;
      var j := |folds|;
      folds := folds + [f];
      while j > 0 && f.start < folds[j - 1].start
        invariant 0 <= j <= |was| && |folds| == |was| + 1
        invariant forall i :: 0 <= i < j ==> folds[i] == was[i]
        invariant forall i, k :: j <= i < |was| && k == i + 1 ==> folds[k] == was[i]
        invariant forall i :: j <= i < |was| ==> f.start < was[i].start
      {
        folds := folds[j := folds[j - 1]];
        j := j - 1;
      }
      folds := folds[j := f];
      Spliced(was, folds, j, f);
      AddAt(was, f, j, 0, |buf|);
    }

    /** linenoiseBuildHistoryFold. */
    method BuildHistoryFold() returns (fs: seq<Fold>)
      requires WellFormed(buf)
      ensures fs == HistoryFolds(buf)
    {
      hide WellFormed, HistoryFold;
      var lines := CountLines(buf);
      if |buf| == 0 { return []; }
      if if lines <= 1 then |buf| < HISTORY_FOLD_THRESHOLD else |buf| < HISTORY_FOLD_THRESHOLD && lines < HISTORY_FOLD_LINES {
        return [];
      }
      var f := ContextFold();
      fs := [f];
    }

    method ContextFold() returns (f: Fold)
      requires WellFormed(buf) && buf != []
      ensures f == HistoryFold(buf)
    {
      hide WellFormed, Ahead, Behind;
      Ends(buf);
      f := Fold(0, |buf|);
      if |buf| > HISTORY_FOLD_CONTEXT * 2 {
        var head, nl := ScanAhead();
        var start := if nl then 0 else head;
        var tail, nl' := ScanBehind();
        var end := if nl' then |buf| else tail;
        f := if start >= end then Fold(0, |buf|) else Fold(start, end);
      }
    }

    method ScanAhead() returns (p: nat, nl: bool)
      requires WellFormed(buf) && Boundary(buf, 0)
      ensures (p, nl) == Ahead(buf, 0, HISTORY_FOLD_CONTEXT)
    {
      hide WellFormed, Ahead, ClusterAfter;
      p, nl := 0, false;
      var chars := 0;
      while p < |buf| && chars < HISTORY_FOLD_CONTEXT
        invariant chars <= HISTORY_FOLD_CONTEXT && p <= |buf| && Boundary(buf, p)
        invariant var rest := Ahead(buf, p, HISTORY_FOLD_CONTEXT - chars);
          (rest.0, nl || rest.1) == Ahead(buf, 0, HISTORY_FOLD_CONTEXT)
      {
        var step := StepForward(buf, p);
        AheadStep(buf, p, HISTORY_FOLD_CONTEXT - chars);
        if step == 0 || p + step > |buf| { break; }
        if buf[p] == NEWLINE { nl := true; }
        p := p + step;
        chars := chars + 1;
      }
      AheadStep(buf, p, HISTORY_FOLD_CONTEXT - chars);
    }

    method ScanBehind() returns (p: nat, nl: bool)
      requires WellFormed(buf) && Boundary(buf, |buf|)
      ensures (p, nl) == Behind(buf, |buf|, HISTORY_FOLD_CONTEXT)
    {
      hide WellFormed, Behind, ClusterBefore;
      p, nl := |buf|, false;
      var chars := 0;
      while p > 0 && chars < HISTORY_FOLD_CONTEXT
        invariant chars <= HISTORY_FOLD_CONTEXT && p <= |buf| && Boundary(buf, p)
        invariant var rest := Behind(buf, p, HISTORY_FOLD_CONTEXT - chars);
          (rest.0, nl || rest.1) == Behind(buf, |buf|, HISTORY_FOLD_CONTEXT)
      {
        var step := StepBack(buf, p);
        BehindStep(buf, p, HISTORY_FOLD_CONTEXT - chars);
        if step == 0 || step > p { break; }
        p := p - step;
        if buf[p] == NEWLINE { nl := true; }
        chars := chars + 1;
      }
      BehindStep(buf, p, HISTORY_FOLD_CONTEXT - chars);
    }

    /** linenoiseEditHistoryNext. */
    method HistoryNext(older: bool)
      requires Fit()
      modifies this`buf, this`pos, this`folds, this`buflen, this`texts, this`history, this`index
      ensures Fit() && Limit() == old(Limit()) && Now() == Recall(old(Now()), Limit(), older)
    {
      hide WellFormed, HistoryFolds, Covers, Recalled, TextsUnder;
      if |history| > 1 {
        history := history[|history| - 1 - index := buf];
        var next: int := if older then index + 1 else index - 1;
        if next < 0 {
          index := 0;
          return;
        } else if next >= |history| {
          index := |history| - 1;
          return;
        }
        index := next;
        var src := history[|history| - 1 - index];
        ShowEntry(src);
      }
    }

    /** A history entry becomes the line. */
    method ShowEntry(src: seq<Byte>)
      requires Sized() && Insertable(src) && |src| <= Limit()
      modifies this`buf, this`pos, this`folds, this`buflen, this`texts
      ensures Sized() && Limit() == old(Limit())
      ensures EditLine.Line(buf, pos, folds) == Recalled(src) && texts == TextsUnder(src, folds)
    {
      hide WellFormed, HistoryFolds, TextsUnder;
      var len := |src|;
      var ok := Grow(len);
      if !ok && len > buflen { len := buflen; }
      assert src[..len] == src;
      buf := src[..len];
      pos := len;
      folds := BuildHistoryFold();
      texts := TextsUnder(buf, folds);
    }

    /** pasteBufferAppend: once something does not fit, nothing more is kept. */
    method Append(s: seq<Byte>, room: nat, ghost settled: seq<Byte>)
      requires Fit() && room == Room(Now().line, Limit()) && s != []
      requires Collected(settled, pasteBuf, pasteOverflowed, room)
      modifies this`pasteBuf, this`pasteOverflowed, this`buflen
      ensures Sized() && Limit() == old(Limit())
      ensures Collected(settled + s, pasteBuf, pasteOverflowed, room)
    {
      if pasteOverflowed { return; }
      var ok := false;
      if |pasteBuf| <= room && |s| <= room - |pasteBuf| { ok := Grow(|buf| + |pasteBuf| + |s|); }
      if ok { pasteBuf := pasteBuf + s; } else { pasteOverflowed := true; }
    }

    /** One byte of a paste: the terminator is tracked without being stored, and
        stored after all when it turns out to be text. */
    method PasteByte(room: nat) returns (ended: bool)
      requires Fit() && Pasting() && queued != [] && room == Room(Now().line, Limit())
      modifies this`queued, this`seen, this`pasteBuf, this`pasteMatch, this`pasteOverflowed, this`buflen
      ensures Sized() && Limit() == old(Limit())
      ensures queued == old(queued)[1..] && seen == old(seen) + [old(queued)[0]]
      ensures !ended ==> Pasting()
      ensures ended ==> |seen| >= |END| && Payload(seen, seen[..|seen| - |END|])
                        && Collected(seen[..|seen| - |END|], pasteBuf, pasteOverflowed, room)
    {
      hide Matching, Payload, Good, Collected;
      MatchSplits(seen, pasteMatch);
      ghost var before, settled := seen, seen[..|seen| - pasteMatch];
      var c := queued[0];
      queued := queued[1..];
      seen := seen + [c];
      if c == END[pasteMatch] {
        pasteMatch := pasteMatch + 1;
        assert seen[..|seen| - pasteMatch] == settled;
        if pasteMatch == |END| {
          MatchEnd(before, c);
          return true;
        }
        MatchByte(before, pasteMatch - 1, c);
        return false;
      }
      MatchFails(before, pasteMatch, c);
      Release(c, room, settled);
      return false;
    }

    /** What looked like a terminator was text. */
    method Release(c: Byte, room: nat, ghost settled: seq<Byte>)
      requires Fit() && room == Room(Now().line, Limit()) && pasteMatch < |END| && c != END[pasteMatch]
      requires seen == settled + END[..pasteMatch] + [c] && Matching(seen, if c == END[0] then 1 else 0)
      requires Collected(settled, pasteBuf, pasteOverflowed, room)
      modifies this`pasteBuf, this`pasteMatch, this`pasteOverflowed, this`buflen
      ensures Sized() && Limit() == old(Limit()) && Pasting()
    {
      hide Matching, Good, Collected;
      ghost var rest := settled;
      if pasteMatch > 0 {
        Append(END[..pasteMatch], room, settled);
        rest := settled + END[..pasteMatch];
        pasteMatch := 0;
        if c == END[0] {
          pasteMatch := 1;
          assert seen[..|seen| - 1] == rest;
          return;
        }
      }
      Append([c], room, rest);
      assert seen[..|seen| - 0] == rest + [c] by { if rest == settled { assert settled + [] == settled; } }
    }

    /** The end of a paste: the collected bytes are normalized, checked and
        inserted, folded when they are long or have several lines. */
    method FinishPaste(ghost payload: seq<Byte>)
      requires Fit() && Collected(payload, pasteBuf, pasteOverflowed, Room(Now().line, Limit()))
      modifies this`buf, this`pos, this`folds, this`texts, this`buflen
      modifies this`seen, this`pasteActive, this`pasteBuf, this`pasteMatch, this`pasteOverflowed
      ensures Fit() && Limit() == old(Limit()) && Now() == Pasted(old(Now()), Limit(), payload)
      ensures !pasteActive && seen == [] && pasteBuf == [] && pasteMatch == 0 && !pasteOverflowed
    {
      hide WellFormed, Covers, Recallable, Clean, Normalized, Type, TypeFolded;
      var data, overflowed := pasteBuf, pasteOverflowed;
      pasteBuf, pasteMatch, pasteActive, pasteOverflowed, seen := [], 0, false, false, [];
      if overflowed || data == [] { return; }
      var t := Normalize(data);
      var clean := CheckClean(t);
      if !clean { return; }
      CleanInsertable(t);
      NormalizedNonempty(data);
      if NEWLINE in t || |t| >= FOLD_THRESHOLD {
        InsertFolded(t);
      } else {
        var ok := Insert(t);
      }
    }

    method InsertFolded(t: seq<Byte>)
      requires Fit() && Insertable(t) && t != [] && |buf| + |t| <= Limit() && |folds| < MAX_FOLDS
      modifies this`buf, this`pos, this`folds, this`texts, this`buflen
      ensures Fit() && Limit() == old(Limit()) && Now() == TypeFolded(old(Now()), Limit(), t)
    {
      hide WellFormed, Covers, Recallable, Type, Add, AddText;
      ghost var was := Now();
      var start := pos;
      var ok := Insert(t);
      ghost var typed := Now();
      assert typed == Type(was, Limit(), t);
      FoldedSound(was, Limit(), t);
      texts := TypeFolded(was, Limit(), t).texts;
      FoldBounds(typed);
      TypeRoom(was, Limit(), t);
      FoldAdd(Fold(start, start + |t|));
    }

    /** linenoiseEditPaste: bytes are taken until the first terminator, or until
        there are no more for now. */
    method EditPaste() returns (finished: bool, ghost payload: seq<Byte>)
      requires Fit() && Pasting()
      modifies this`buf, this`pos, this`folds, this`texts, this`buflen, this`queued
      modifies this`seen, this`pasteActive, this`pasteBuf, this`pasteMatch, this`pasteOverflowed
      ensures Fit() && Limit() == old(Limit())
      ensures !finished ==> pasteActive && Pasting() && Now() == old(Now())
                            && queued == [] && seen == old(seen + queued)
      ensures finished ==> !pasteActive && seen == [] && pasteBuf == [] && pasteMatch == 0 && !pasteOverflowed
      ensures finished ==> exists used :: used + queued == old(seen + queued) && Payload(used, payload)
      ensures finished ==> Now() == Pasted(old(Now()), Limit(), payload) && |queued| < |old(queued)|
    {
      hide Matching, Payload, Collected, Good;
      var room := PasteRoom();
      ghost var line := Now();
      while queued != []
        invariant Fit() && Pasting() && Limit() == old(Limit()) && Now() == line
        invariant room == Room(Now().line, Limit()) && |queued| <= |old(queued)|
        invariant seen + queued == old(seen + queued)
        decreases |queued|
      {
        ghost var s, q := seen, queued;
        var ended := PasteByte(room);
        assert s + q == s + [q[0]] + q[1..];
        if ended {
          payload := seen[..|seen| - |END|];
          ghost var used := seen;
          FinishPaste(payload);
          assert used + queued == old(seen + queued);
          return true, payload;
        }
      }
      assert seen + queued == seen;
      pasteActive := true;
      return false, [];
    }

    /** What a paste may still bring. */
    method PasteRoom() returns (room: nat)
      requires Sized()
      ensures room == Room(Now().line, Limit())
    {
      room := if buflenMax != 0 then buflenMax else buflen;
      room := if room > |buf| then room - |buf| else 0;
      if room > MAX_BYTES { room := MAX_BYTES; }
      if |folds| == MAX_FOLDS { room := 0; }
    }

    /** The reply and the new state are those of an outcome. */
    ghost predicate Agrees(r: Reply, o: Outcome)
      reads this
    {
      match o
      case More(next) => r == EditMore && Now() == next
      case Done(text, left) => r == Finished(text) && history == left
      case Interrupted => r == Cancelled
      case EndOfInput(left) => r == EndOfFile && history == left
    }

    /** The switch over control bytes. */
    method Dispatch(c: Byte) returns (r: Reply)
      requires Fit() && (c < 32 || c == RUBOUT)
      modifies this`buf, this`pos, this`folds, this`texts, this`buflen, this`history, this`index
      ensures Limit() == old(Limit()) && (r == EditMore ==> Fit())
      ensures Agrees(r, Press(old(Now()), Limit(), Event.Control(c)))
    {
      hide WellFormed, Good, Left, Right, Home, End, Backspace, Delete, DeleteWord, KillRest, KillLine, Swap, Recall;
      assert history != [] by { HasHistory(); }
      r := EditMore;
      match c {
        case 13 =>
          history := history[..|history| - 1];
          r := Finished(buf);
        case 3 => r := Cancelled;
        case 127 => DeleteLeft();
        case 8 => DeleteLeft();
        case 4 =>
          if |buf| > 0 {
            DeleteRight();
          } else {
            history := history[..|history| - 1];
            r := EndOfFile;
          }
        case 20 => SwapClusters();
        case 2 => MoveLeft();
        case 6 => MoveRight();
        case 16 => HistoryNext(true);
        case 14 => HistoryNext(false);
        case 21 => KillWhole();
        case 11 => KillToEnd();
        case 1 => MoveHome();
        case 5 => MoveEnd();
        case 23 => DeletePrevWord();
        case _ => return;
      }
    }

    lemma HasHistory()
      requires Fit()
      ensures history != []
    {
    }

    /** The switch over escape sequences other than the paste introducer. */
    method Escape(body: seq<Byte>)
      requires Fit() && WellBehaved(Sequence(body)) && body != PASTE
      modifies this`buf, this`pos, this`folds, this`texts, this`buflen, this`history, this`index
      ensures Limit() == old(Limit()) && Fit()
      ensures Agrees(EditMore, Press(old(Now()), Limit(), Sequence(body)))
    {
      hide WellFormed, Good, Left, Right, Home, End, Backspace, Delete, DeleteWord, KillRest, KillLine, Swap, Recall;
      if body == DELETE {
        DeleteRight();
      } else {
        var last := body[|body| - 1];
        if last == 'A' as int { HistoryNext(true); }
        else if last == 'B' as int { HistoryNext(false); }
        else if last == 'C' as int { MoveRight(); }
        else if last == 'D' as int { MoveLeft(); }
        else if last == 'H' as int { MoveHome(); }
        else if last == 'F' as int { MoveEnd(); }
      }
    }

    /** A byte with nothing held back. */
    method Fresh(c: Byte) returns (r: Reply)
      requires Fit() && pending == []
      modifies this`buf, this`pos, this`folds, this`texts, this`buflen, this`history, this`index, this`pending
      ensures Limit() == old(Limit()) && (r == EditMore ==> Fit()) && pending == Start(c).pending
      ensures AllBehave(Start(c).events)
      ensures Agrees(r, PressAll(old(Now()), Limit(), Start(c).events))
    {
      hide WellFormed, Good, Press;
      StartBehaves(c);
      ReplacementInsertable();
      PressFew(Now(), Limit(), Start(c).events);
      r := EditMore;
      if c == ESC || c >= 0xC2 {
        if c > 0xF4 {
          PressTypes(Now(), Limit(), FFFD);
          var ok := Insert(FFFD);
        } else {
          pending := [c];
        }
      } else if c >= 0x80 {
        PressTypes(Now(), Limit(), FFFD);
        var ok := Insert(FFFD);
      } else if c >= 32 && c != RUBOUT {
        assert Insertable([c]) by { assert WellBehaved(Start(c).events[0]); }
        PressTypes(Now(), Limit(), [c]);
        var ok := Insert([c]);
      } else {
        r := Dispatch(c);
      }
    }

    /** One byte outside a paste.  The paste introducer is only reported. */
    method Key(c: Byte) returns (r: Reply, paste: bool)
      requires Fit() && Pending(pending)
      modifies this`buf, this`pos, this`folds, this`texts, this`buflen, this`history, this`index, this`pending
      ensures Limit() == old(Limit()) && (r == EditMore ==> Fit())
      ensures var a := Assemble(old(pending), c);
        && pending == a.pending && Pending(pending) && AllBehave(a.events)
        && paste == (a.events == [Sequence(PASTE)])
        && Agrees(r, PressAll(old(Now()), Limit(), a.events))
      ensures paste ==> r == EditMore && pending == [] && Now() == old(Now())
    {
      hide WellFormed, Good, Press, PressAll, Acceptable, Start;
      AssembleBehaves(pending, c);
      ReplacementInsertable();
      PressFew(Now(), Limit(), Assemble(pending, c).events);
      StartBehaves(c);
      StartsNoPaste(c);
      if pending != [] && pending[0] != ESC {
        r := Multibyte(c);
        paste := false;
        return;
      }
      paste := false;
      if pending != [] {
        if |pending| == 1 && c != '[' as int && c != 'O' as int {
          pending := [];
        } else {
          r, paste := EscapeByte(c);
          return;
        }
      }
      r := Fresh(c);
    }

    /** A byte while a multi-byte character is held back. */
    method Multibyte(c: Byte) returns (r: Reply)
      requires Fit() && Pending(pending) && pending != [] && pending[0] != ESC
      modifies this`buf, this`pos, this`folds, this`texts, this`buflen, this`history, this`index, this`pending
      ensures Limit() == old(Limit()) && (r == EditMore ==> Fit())
      ensures var a := Assemble(old(pending), c);
        && pending == a.pending && AllBehave(a.events)
        && Agrees(r, PressAll(old(Now()), Limit(), a.events))
    {
      hide WellFormed, Good, Press, PressAll, Start, Type;
      AssembleBehaves(pending, c);
      ReplacementInsertable();
      PressFew(Now(), Limit(), Assemble(pending, c).events);
      PressTypes(Now(), Limit(), FFFD);
      if !Continuation(c) {
        pending := [];
        PressSplit(Now(), Limit(), FFFD, Start(c).events) by { StartBehaves(c); }
        var ok := Insert(FFFD);
        r := Fresh(c);
        return;
      }
      r := EditMore;
      pending := pending + [c];
      var need := ByteLen(pending[0]);
      if |pending| < need { return; }
      var key := pending;
      pending := [];
      if Acceptable(key) {
        AcceptableIsEncoding(key);
        PressTypes(Now(), Limit(), key);
        var ok := Insert(key);
      } else {
        var ok := Insert(FFFD);
      }
    }

    /** A byte inside an escape sequence. */
    method EscapeByte(c: Byte) returns (r: Reply, paste: bool)
      requires Fit() && Pending(pending) && pending != [] && pending[0] == ESC
      requires !(|pending| == 1 && c != '[' as int && c != 'O' as int)
      modifies this`buf, this`pos, this`folds, this`texts, this`buflen, this`history, this`index, this`pending
      ensures Limit() == old(Limit()) && r == EditMore && Fit()
      ensures var a := Assemble(old(pending), c);
        && pending == a.pending && AllBehave(a.events)
        && paste == (a.events == [Sequence(PASTE)])
        && Agrees(r, PressAll(old(Now()), Limit(), a.events))
      ensures paste ==> pending == [] && Now() == old(Now())
    {
      hide WellFormed, Good, Press, PressAll, Start;
      AssembleBehaves(pending, c);
      PressFew(Now(), Limit(), Assemble(pending, c).events);
      r, paste := EditMore, false;
      pending := pending + [c];
      if |pending| > 2 && '@' as int <= c <= '~' as int {
        var body := pending[1..];
        pending := [];
        assert WellBehaved(Sequence(body));
        PressOne(Now(), Limit(), Sequence(body));
        if body == PASTE {
          paste := true;
          PressPaste(Now(), Limit());
        } else {
          Escape(body);
        }
      } else if |pending| == PENDING_MAX {
        pending := [];
      }
    }

    method QueueInput(s: seq<Byte>)
      requires Valid()
      modifies this`queued
      ensures Valid() && queued == old(queued) + s
    {
      queued := queued + s;
    }

    /** linenoiseEditFeed: one byte, or as much of a paste as there is. */
    method Feed() returns (r: Reply, ghost payload: seq<Byte>)
      requires Valid()
      modifies this
      ensures Limit() == old(Limit()) && (r == EditMore ==> Valid())
      ensures old(queued) != [] ==> |queued| < |old(queued)|
      ensures old(queued) == [] ==> queued == [] && r == EditMore && Now() == old(Now()) && pending == old(pending)
      ensures old(queued) != [] && !old(pasteActive) ==>
        var a := Assemble(old(pending), old(queued)[0]);
        && AllBehave(a.events) && pending == a.pending
        && if a.events == [Sequence(PASTE)] then r == EditMore && Read([], old(queued)[1..], old(Now()), payload)
           else !pasteActive && queued == old(queued)[1..] && Agrees(r, PressAll(old(Now()), Limit(), a.events))
      ensures old(pasteActive) ==> r == EditMore && pending == [] && Read(old(seen), old(queued), old(Now()), payload)
    {
      hide WellFormed, Good, Press, PressAll, Pasted, Matching, Payload;
      r, payload := EditMore, [];
      if pasteActive {
        var finished;
        finished, payload := EditPaste();
        if !finished { MatchUnended(seen, pasteMatch); }
        return;
      }
      if queued == [] { return; }
      ghost var rest := queued[1..];
      var c := queued[0];
      queued := queued[1..];
      var paste;
      r, paste := Key(c);
      if paste {
        MatchNothing();
        assert seen[..|seen| - pasteMatch] == [];
        var finished;
        finished, payload := EditPaste();
        if !finished { MatchUnended(seen, pasteMatch); }
      }
    }

    /** A paste of which `before` had been read and `ready` was waiting: either all
        of it is taken and no terminator has come, or it ends at the first one. */
    ghost predicate Read(before: seq<Byte>, ready: seq<Byte>, was: Edit, payload: seq<Byte>)
      requires Good(was, Limit())
      reads this
    {
      if pasteActive then queued == [] && seen == before + ready && Unended(seen) && Now() == was
      else Now() == Pasted(was, Limit(), payload)
           && exists used :: used + queued == before + ready && Payload(used, payload)
    }

    /** All of the editor that what it reads next depends on. */
    ghost function Sits(): Sitting
      reads this
    {
      Sitting(Now(), pending, pasteActive, seen)
    }

    /** Where the bytes waiting lead. */
    ghost function Leads(): Fate
      requires Valid()
      reads this
    {
      LeadsWith(queued)
    }

    ghost function LeadsWith(s: seq<Byte>): Fate
      requires Valid()
      reads this
    {
      ValidFine();
      BytesIn(Sits(), Limit(), s)
    }

    lemma ValidFine()
      requires Valid()
      ensures Fine(Sits(), Limit())
    {
      hide WellFormed, Good, Matching;
      if pasteActive { MatchUnended(seen, pasteMatch); }
    }

    /** One call to linenoiseEditFeed, which takes one byte or all there is of a paste,
        gets nearer to where the bytes waiting lead and changes nothing about it. */
    method FeedOn() returns (r: Reply)
      requires Valid() && queued != []
      modifies this
      ensures Limit() == old(Limit()) && |queued| < |old(queued)|
      ensures r == EditMore ==> Valid() && Leads() == old(Leads())
      ensures r != EditMore ==> old(Leads()).Over? && Agrees(r, old(Leads()).outcome) && queued == old(Leads()).rest
    {
      hide WellFormed, Good, Press, PressAll, Pasted, Matching, Payload, Assemble, AllBehave, BytesIn, Pending, Unended;
      ghost var was, q, cap := Sits(), queued, Limit();
      ValidFine();
      FirstIn(was, cap, q);
      ghost var payload;
      r, payload := Feed();
      if r == EditMore {
        ValidFine();
        if was.pasting {
          PasteTaken(was, cap, q, payload);
        } else if Assemble(was.pending, q[0]).events == [Sequence(PASTE)] {
          PasteAlone(was.pending, q[0]);
          PasteTaken(Sitting(was.edit, [], true, []), cap, q[1..], payload);
        }
      }
    }

    /** A paste read from `was` on led where it should. */
    lemma PasteTaken(was: Sitting, cap: nat, q: seq<Byte>, payload: seq<Byte>)
      requires Valid() && cap == Limit() && Fine(was, cap) && was.pasting && pending == []
      requires Read(was.seen, q, was.edit, payload)
      ensures Leads() == BytesIn(was, cap, q)
    {
      hide WellFormed, Good, Press, PressAll, Pasted, Matching, Payload, Assemble, AllBehave, BytesIn, Pending, Unended;
      ValidFine();
      if pasteActive {
        PasteGoesOn(was, cap, q, queued);
        assert q + queued == q;
      } else {
        var used :| used + queued == was.seen + q && Payload(used, payload);
        PasteEnds(was, cap, q, used, queued, payload);
      }
    }

    /** For every sequence of waiting bytes, however it came to wait: the editor works
        through it and stands exactly where its bytes lead one by one, or hands over
        what they end the edit with. */
    method Drain() returns (r: Reply)
      requires Valid()
      modifies this
      ensures Limit() == old(Limit())
      ensures r == EditMore ==> Valid() && queued == [] && old(Leads()) == Going(Sits())
      ensures r != EditMore ==> old(Leads()).Over? && Agrees(r, old(Leads()).outcome) && queued == old(Leads()).rest
      ensures r.Finished? ==> Insertable(r.text) && |r.text| <= Limit()
    {
      hide WellFormed, Pending, Pasting, Good, BytesIn, Sized, Agrees, Insertable;
      ghost var goal := Leads();
      FateText(Sits(), Limit(), queued) by { ValidFine(); }
      r := EditMore;
      while queued != [] && r == EditMore
        invariant Limit() == old(Limit()) && (r == EditMore ==> Valid() && Leads() == goal)
        invariant r != EditMore ==> goal.Over? && Agrees(r, goal.outcome) && queued == goal.rest
        decreases |queued|
      {
        r := FeedOn();
      }
      if r == EditMore { NothingIn(Sits(), Limit()) by { ValidFine(); } }
      if r.Finished? { AgreesText(r, goal.outcome); }
    }

    lemma AgreesText(r: Reply, o: Outcome)
      requires Agrees(r, o) && r.Finished?
      ensures o.Done? && o.text == r.text
    {
    }

    /** linenoiseEditFeedByte for every byte of `s`, until the edit ends: the same as
        having all of them wait at once. */
    method FeedBytes(s: seq<Byte>) returns (r: Reply, taken: nat)
      requires Valid() && queued == []
      modifies this
      ensures Limit() == old(Limit()) && taken <= |s| && queued == []
      ensures var o := old(LeadsWith(s));
        if r == EditMore then Valid() && taken == |s| && o == Going(Sits())
        else o.Over? && Agrees(r, o.outcome) && s[taken..] == o.rest
    {
      hide WellFormed, Pending, Pasting, Good, BytesIn, Sized, Agrees, Fine;
      ghost var was, cap := Sits(), Limit();
      ValidFine();
      assert s[0..] == s;
      r, taken := EditMore, 0;
      while taken < |s|
        invariant taken <= |s| && r == EditMore && Valid() && queued == [] && Limit() == cap && Fine(was, cap)
        invariant Fine(Sits(), cap) && BytesIn(was, cap, s) == BytesIn(Sits(), cap, s[taken..])
      {
        ghost var c := [s[taken]];
        assert s[taken..] == c + s[taken + 1..];
        BytesCut(Sits(), cap, c, s[taken + 1..]);
        QueueInput([s[taken]]);
        taken := taken + 1;
        assert queued == c;
        r := FeedOn();
        if r != EditMore {
          assert [] + s[taken..] == s[taken..];
          return;
        }
        ValidFine();
        NothingIn(Sits(), cap);
      }
      NothingIn(Sits(), cap);
      assert s[taken..] == [];
    }

    /** Printable text that fits goes in at the cursor, byte for byte. */
    method FeedText(ghost cps: seq<int>, s: seq<Byte>)
      requires Valid() && !pasteActive && queued == [] && pending == []
      requires AllPrintable(cps) && cps != [] && s == EncodeAll(cps) && |buf| + |s| <= Limit()
      modifies this
      ensures Valid() && !pasteActive && queued == [] && pending == [] && Limit() == old(Limit())
      ensures buf == old(buf[..pos]) + s + old(buf[pos..]) && pos == old(pos) + |s|
    {
      hide WellFormed, AssembleAll, AllBehave, PressAll, Covers, AfterInsert, TextsAfterInsert, Recallable, Texts, AllPrintable;
      hide BytesIn, Pending, Pasting;
      TypingInserts(Now(), Limit(), cps);
      TextsNoPaste(cps);
      ValidFine();
      BytesAreKeys(Sits(), Limit(), s);
      var r, taken := FeedBytes(s);
    }
  }

  lemma MatchUnended(seen: seq<Byte>, matched: nat)
    requires Matching(seen, matched)
    ensures Unended(seen)
  {
  }

  /** No event, or just one. */
  lemma PressFew(e: Edit, cap: nat, evs: seq<Event>)
    requires Good(e, cap) && AllBehave(evs)
    ensures evs == [] ==> PressAll(e, cap, evs) == Outcome.More(e)
    ensures |evs| == 1 ==> WellBehaved(evs[0]) && PressAll(e, cap, evs) == Press(e, cap, evs[0])
  {
    hide WellFormed, Good, Press;
  }

  lemma PressOne(e: Edit, cap: nat, ev: Event)
    requires Good(e, cap) && WellBehaved(ev)
    ensures AllBehave([ev]) && PressAll(e, cap, [ev]) == Press(e, cap, ev)
  {
    hide WellFormed, Good, Press;
    assert AllBehave([ev]);
    PressFew(e, cap, [ev]);
  }

  lemma PressPaste(e: Edit, cap: nat)
    requires Good(e, cap)
    ensures WellBehaved(Sequence(PASTE)) && Press(e, cap, Sequence(PASTE)) == Outcome.More(e)
  {
  }

  lemma PressTypes(e: Edit, cap: nat, t: seq<Byte>)
    requires Good(e, cap) && Insertable(t)
    ensures Press(e, cap, Text(t)) == Outcome.More(Type(e, cap, t))
  {
  }

  lemma PressSplit(e: Edit, cap: nat, t: seq<Byte>, evs: seq<Event>)
    requires Good(e, cap) && Insertable(t) && AllBehave(evs)
    ensures AllBehave([Text(t)] + evs)
    ensures PressAll(e, cap, [Text(t)] + evs) == PressAll(Type(e, cap, t), cap, evs)
  {
    hide WellFormed, Good, Type;
    var all := [Text(t)] + evs;
    assert all[1..] == evs;
    assert WellBehaved(Text(t));
    PressTypes(e, cap, t);
  }

  lemma Spliced(was: seq<Fold>, now: seq<Fold>, j: nat, f: Fold)
    requires j <= |was| && |now| == |was| + 1 && now[j] == f
    requires forall i :: 0 <= i < j ==> now[i] == was[i]
    requires forall i, k :: j <= i < |was| && k == i + 1 ==> now[k] == was[i]
    ensures now == was[..j] + [f] + was[j..]
  {
    forall k | 0 <= k < |now| ensures now[k] == (was[..j] + [f] + was[j..])[k] {
      if k > j { assert now[k] == was[k - 1]; }
    }
  }

  /** What an adjustment makes of the first range. */
  lemma InsertStep(fs: seq<Fold>, at: nat, len: nat)
    ensures fs == [] ==> AfterInsert(fs, at, len) == []
    ensures fs != [] ==>
      var first := if at <= fs[0].start then [Fold(fs[0].start + len, fs[0].end + len)] else if at < fs[0].end then [] else [fs[0]];
      AfterInsert(fs, at, len) == first + AfterInsert(fs[1..], at, len)
  {
    if fs != [] { assert [] + AfterInsert(fs[1..], at, len) == AfterInsert(fs[1..], at, len); }
  }

  lemma DeleteStep(fs: seq<Fold>, at: nat, len: nat)
    ensures fs == [] ==> AfterDelete(fs, at, len) == []
    ensures fs != [] ==>
      var first := if at + len <= fs[0].start then [Fold(fs[0].start - len, fs[0].end - len)] else if at >= fs[0].end then [fs[0]] else [];
      AfterDelete(fs, at, len) == first + AfterDelete(fs[1..], at, len)
  {
    if fs != [] { assert [] + AfterDelete(fs[1..], at, len) == AfterDelete(fs[1..], at, len); }
  }

  lemma MatchSplits(seen: seq<Byte>, matched: nat)
    requires Matching(seen, matched)
    ensures matched < |END| && matched <= |seen| && seen == seen[..|seen| - matched] + END[..matched]
  {
  }

  lemma FoldBounds(e: Edit)
    requires Covers(e.line.buf, e.line.folds, e.texts, 0)
    ensures Layout(e.line.folds, 0, |e.line.buf|)
  {
    CoversLayout(e.line.buf, e.line.folds, e.texts, 0);
  }

  /** Inserting never adds a fold. */
  lemma TypeRoom(e: Edit, cap: nat, t: seq<Byte>)
    requires Good(e, cap) && Insertable(t)
    ensures |Type(e, cap, t).line.folds| <= |e.line.folds|
  {
    hide WellFormed, Covers;
  }

  method CountLines(t: seq<Byte>) returns (lines: nat)
    ensures lines == Lines(t)
  {
    lines := 1;
    assert t[0..] == t;
    for j := 0 to |t|
      invariant lines + Lines(t[j..]) == Lines(t) + 1
    {
      assert t[j..][1..] == t[j + 1..];
      if t[j] == NEWLINE { lines := lines + 1; }
    }
    assert t[|t|..] == [];
  }

  lemma {:induction false} AddAt(fs: seq<Fold>, f: Fold, j: nat, lo: int, len: int)
    requires Layout(fs, lo, len) && j <= |fs|
    requires j > 0 ==> fs[j - 1].start <= f.start
    requires forall i :: j <= i < |fs| ==> f.start < fs[i].start
    ensures Add(fs, f) == fs[..j] + [f] + fs[j..]
    decreases |fs|
  {
    if fs != [] && j > 0 {
      FirstLeast(fs, lo, len, j - 1);
      var rest := fs[1..];
      assert forall i :: j - 1 <= i < |rest| ==> rest[i] == fs[i + 1];
      assert j > 1 ==> rest[j - 2] == fs[j - 1];
      AddAt(rest, f, j - 1, fs[0].end, len);
      assert rest[..j - 1] == fs[1..j] && rest[j - 1..] == fs[j..];
      assert [fs[0]] + fs[1..j] == fs[..j];
    }
  }

  lemma {:induction false} FirstLeast(fs: seq<Fold>, lo: int, len: int, j: nat)
    requires Layout(fs, lo, len) && j < |fs|
    ensures lo <= fs[j].start && fs[0].start <= fs[j].start
  {
    if j > 0 { FirstLeast(fs[1..], fs[0].end, len, j - 1); }
  }
}
