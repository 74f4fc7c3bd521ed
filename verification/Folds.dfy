/** Fold ranges: parts of the edit buffer shown as a short marker. */
module Folds {
  import opened Utf8

  datatype Fold = Fold(start: int, end: int)

  const MAX_FOLDS := 16

  /** Sorted, disjoint, non-empty ranges inside [lo, len). */
  predicate Layout(fs: seq<Fold>, lo: int, len: int) {
    fs == [] || (lo <= fs[0].start < fs[0].end <= len && Layout(fs[1..], fs[0].end, len))
  }

  /** Such ranges cut `buf` at code points and cover exactly `texts`. */
  ghost predicate Covers(buf: seq<Byte>, fs: seq<Fold>, texts: seq<seq<Byte>>, lo: int) {
    && |texts| == |fs|
    && (fs != [] ==>
          && 0 <= lo <= fs[0].start < fs[0].end <= |buf|
          && buf[fs[0].start..fs[0].end] == texts[0]
          && WellFormed(buf[..fs[0].start]) && WellFormed(buf[..fs[0].end])
          && Covers(buf, fs[1..], texts[1..], fs[0].end))
  }

  lemma {:induction false} CoversLayout(buf: seq<Byte>, fs: seq<Fold>, texts: seq<seq<Byte>>, lo: int)
    requires Covers(buf, fs, texts, lo)
    ensures Layout(fs, lo, |buf|) && |texts| == |fs|
  {
    if fs != [] { CoversLayout(buf, fs[1..], texts[1..], fs[0].end); }
  }

  lemma CoversFrom(buf: seq<Byte>, fs: seq<Fold>, texts: seq<seq<Byte>>, lo: int, lo': int)
    requires Covers(buf, fs, texts, lo) && 0 <= lo' <= lo
    ensures Covers(buf, fs, texts, lo')
  {
  }

  /** linenoiseAdjustFoldsAfterInsert as a function: later folds move, and a fold
      the insertion lands inside of is dropped. */
  function AfterInsert(fs: seq<Fold>, pos: nat, len: nat): (r: seq<Fold>)
    ensures |r| <= |fs|
  {
    if fs == [] then []
    else if pos <= fs[0].start then [Fold(fs[0].start + len, fs[0].end + len)] + AfterInsert(fs[1..], pos, len)
    else if pos < fs[0].end then AfterInsert(fs[1..], pos, len)
    else [fs[0]] + AfterInsert(fs[1..], pos, len)
  }

  /** The texts of the folds that survive an insertion. */
  ghost function TextsAfterInsert(fs: seq<Fold>, texts: seq<seq<Byte>>, pos: nat): (r: seq<seq<Byte>>)
    requires |texts| == |fs|
  {
    if fs == [] then []
    else (if fs[0].start < pos < fs[0].end then [] else [texts[0]]) + TextsAfterInsert(fs[1..], texts[1..], pos)
  }

  /** linenoiseAdjustFoldsAfterDelete as a function. */
  function AfterDelete(fs: seq<Fold>, pos: nat, len: nat): (r: seq<Fold>)
    ensures |r| <= |fs|
  {
    if fs == [] then []
    else if pos + len <= fs[0].start then [Fold(fs[0].start - len, fs[0].end - len)] + AfterDelete(fs[1..], pos, len)
    else if pos >= fs[0].end then [fs[0]] + AfterDelete(fs[1..], pos, len)
    else AfterDelete(fs[1..], pos, len)
  }

  ghost function TextsAfterDelete(fs: seq<Fold>, texts: seq<seq<Byte>>, pos: nat, len: nat): (r: seq<seq<Byte>>)
    requires |texts| == |fs|
  {
    if fs == [] then []
    else (if pos + len <= fs[0].start || pos >= fs[0].end then [texts[0]] else [])
         + TextsAfterDelete(fs[1..], texts[1..], pos, len)
  }

  function Inserted(buf: seq<Byte>, pos: nat, ins: seq<Byte>): (r: seq<Byte>)
    requires pos <= |buf|
    ensures |r| == |buf| + |ins|
  {
    buf[..pos] + ins + buf[pos..]
  }

  function Deleted(buf: seq<Byte>, pos: nat, len: nat): (r: seq<Byte>)
    requires pos + len <= |buf|
    ensures |r| == |buf| - len
  {
    buf[..pos] + buf[pos + len..]
  }

  /** A code-point boundary after the insertion point moves with its text. */
  lemma BoundaryAfterInsert(buf: seq<Byte>, pos: nat, ins: seq<Byte>, b: nat)
    requires pos <= b <= |buf| && WellFormed(buf[..pos]) && WellFormed(ins) && WellFormed(buf[..b])
    ensures WellFormed(Inserted(buf, pos, ins)[..b + |ins|])
  {
    hide *;
    assert buf[..b] == buf[..pos] + buf[pos..b];
    Cut(buf[..pos], buf[pos..b]);
    Join(buf[..pos], ins);
    Join(buf[..pos] + ins, buf[pos..b]);
    InsertedFront(buf, pos, ins, b);
  }

  lemma InsertedFront(buf: seq<Byte>, pos: nat, ins: seq<Byte>, b: nat)
    requires pos <= b <= |buf|
    ensures Inserted(buf, pos, ins)[..b + |ins|] == buf[..pos] + ins + buf[pos..b]
  {
    var front := buf[..pos] + ins;
    assert (front + buf[pos..])[..|front| + (b - pos)] == front + buf[pos..][..b - pos];
  }

  lemma BoundaryAfterDelete(buf: seq<Byte>, pos: nat, len: nat, b: nat)
    requires pos + len <= b <= |buf| && WellFormed(buf[..pos]) && WellFormed(buf[..pos + len]) && WellFormed(buf[..b])
    ensures WellFormed(Deleted(buf, pos, len)[..b - len])
  {
    hide WellFormed;
    assert buf[..b] == buf[..pos + len] + buf[pos + len..b];
    Cut(buf[..pos + len], buf[pos + len..b]);
    Join(buf[..pos], buf[pos + len..b]);
    assert Deleted(buf, pos, len)[..b - len] == buf[..pos] + buf[pos + len..b];
  }

  lemma CoversFirst(buf: seq<Byte>, fs: seq<Fold>, texts: seq<seq<Byte>>, lo: int)
    requires Covers(buf, fs, texts, lo) && fs != []
    ensures |texts| == |fs| && 0 <= lo <= fs[0].start < fs[0].end <= |buf|
    ensures buf[fs[0].start..fs[0].end] == texts[0] && WellFormed(buf[..fs[0].start]) && WellFormed(buf[..fs[0].end])
    ensures Covers(buf, fs[1..], texts[1..], fs[0].end)
  {
  }

  lemma CoversCons(buf: seq<Byte>, f: Fold, text: seq<Byte>, fs: seq<Fold>, texts: seq<seq<Byte>>, lo: int)
    requires 0 <= lo <= f.start < f.end <= |buf| && buf[f.start..f.end] == text
    requires WellFormed(buf[..f.start]) && WellFormed(buf[..f.end]) && Covers(buf, fs, texts, f.end)
    ensures Covers(buf, [f] + fs, [text] + texts, lo)
  {
    hide WellFormed;
    assert ([f] + fs)[1..] == fs && ([text] + texts)[1..] == texts;
  }

  lemma CoversNothing(buf: seq<Byte>, lo: int)
    ensures Covers(buf, [], [], lo)
  {
  }

  /** What becomes of the first fold. */
  lemma AfterInsertStep(fs: seq<Fold>, texts: seq<seq<Byte>>, pos: nat, n: nat)
    requires |texts| == |fs|
    ensures fs == [] ==> AfterInsert(fs, pos, n) == [] && TextsAfterInsert(fs, texts, pos) == []
    ensures fs != [] ==>
      var r, rt := AfterInsert(fs[1..], pos, n), TextsAfterInsert(fs[1..], texts[1..], pos);
      if pos <= fs[0].start then
        AfterInsert(fs, pos, n) == [Fold(fs[0].start + n, fs[0].end + n)] + r
        && (fs[0].start < fs[0].end ==> TextsAfterInsert(fs, texts, pos) == [texts[0]] + rt)
      else if pos < fs[0].end then AfterInsert(fs, pos, n) == r && TextsAfterInsert(fs, texts, pos) == rt
      else AfterInsert(fs, pos, n) == [fs[0]] + r && TextsAfterInsert(fs, texts, pos) == [texts[0]] + rt
  {
    if fs != [] {
      var rt := TextsAfterInsert(fs[1..], texts[1..], pos);
      assert [] + rt == rt;
    }
  }

  /** Inserting text anywhere leaves every surviving fold on its own text. */
  lemma {:induction false} InsertKeepsFolds(buf: seq<Byte>, pos: nat, ins: seq<Byte>,
                                            fs: seq<Fold>, texts: seq<seq<Byte>>, lo: int)
    requires Covers(buf, fs, texts, lo) && 0 <= lo && pos <= |buf| && WellFormed(buf[..pos]) && WellFormed(ins)
    ensures |texts| == |fs|
    ensures Covers(Inserted(buf, pos, ins), AfterInsert(fs, pos, |ins|), TextsAfterInsert(fs, texts, pos),
                   if pos <= lo then lo + |ins| else lo)
    decreases |fs|
  {
    hide *;
    CoversLayout(buf, fs, texts, lo);
    AfterInsertStep(fs, texts, pos, |ins|);
    var buf', lo' := Inserted(buf, pos, ins), if pos <= lo then lo + |ins| else lo;
    CoversNothing(buf', lo');
    if fs != [] {
      CoversFirst(buf, fs, texts, lo);
      var f := fs[0];
      var fs', texts' := AfterInsert(fs[1..], pos, |ins|), TextsAfterInsert(fs[1..], texts[1..], pos);
      InsertKeepsFolds(buf, pos, ins, fs[1..], texts[1..], f.end);
      InsertedSlices(buf, pos, ins, f.start, f.end);
      if pos <= f.start {
        BoundaryAfterInsert(buf, pos, ins, f.start);
        BoundaryAfterInsert(buf, pos, ins, f.end);
        CoversCons(buf', Fold(f.start + |ins|, f.end + |ins|), texts[0], fs', texts', lo');
      } else if pos < f.end {
        CoversFrom(buf', fs', texts', f.end + |ins|, lo');
      } else {
        CoversFrom(buf', fs', texts', if pos <= f.end then f.end + |ins| else f.end, f.end);
        CoversCons(buf', f, texts[0], fs', texts', lo');
      }
    }
  }

  lemma InsertedSlices(buf: seq<Byte>, pos: nat, ins: seq<Byte>, a: nat, b: nat)
    requires pos <= |buf| && a <= b <= |buf|
    ensures var r := Inserted(buf, pos, ins);
      && (pos <= a ==> r[a + |ins|..b + |ins|] == buf[a..b])
      && (b <= pos ==> r[a..b] == buf[a..b] && r[..a] == buf[..a] && r[..b] == buf[..b])
  {
  }

  lemma DeletedSlices(buf: seq<Byte>, pos: nat, len: nat, a: nat, b: nat)
    requires pos + len <= |buf| && a <= b <= |buf|
    ensures var r := Deleted(buf, pos, len);
      && (pos + len <= a ==> r[a - len..b - len] == buf[a..b])
      && (b <= pos ==> r[a..b] == buf[a..b] && r[..a] == buf[..a] && r[..b] == buf[..b])
  {
  }

  /** Where a lower bound goes when [pos, pos+len) is deleted. */
  function BoundAfterDelete(lo: int, pos: int, len: int): int {
    if lo >= pos + len then lo - len else if lo < pos then lo else pos
  }

  lemma AfterDeleteStep(fs: seq<Fold>, texts: seq<seq<Byte>>, pos: nat, n: nat)
    requires |texts| == |fs|
    ensures fs == [] ==> AfterDelete(fs, pos, n) == [] && TextsAfterDelete(fs, texts, pos, n) == []
    ensures fs != [] ==>
      var r, rt := AfterDelete(fs[1..], pos, n), TextsAfterDelete(fs[1..], texts[1..], pos, n);
      if pos + n <= fs[0].start then
        AfterDelete(fs, pos, n) == [Fold(fs[0].start - n, fs[0].end - n)] + r
        && TextsAfterDelete(fs, texts, pos, n) == [texts[0]] + rt
      else if pos >= fs[0].end then
        AfterDelete(fs, pos, n) == [fs[0]] + r && TextsAfterDelete(fs, texts, pos, n) == [texts[0]] + rt
      else AfterDelete(fs, pos, n) == r && TextsAfterDelete(fs, texts, pos, n) == rt
  {
    if fs != [] {
      var rt := TextsAfterDelete(fs[1..], texts[1..], pos, n);
      assert [] + rt == rt;
    }
  }

  /** Deleting whole code points leaves every surviving fold on its own text. */
  lemma {:induction false} DeleteKeepsFolds(buf: seq<Byte>, pos: nat, len: nat,
                                            fs: seq<Fold>, texts: seq<seq<Byte>>, lo: int)
    requires Covers(buf, fs, texts, lo) && 0 <= lo && pos + len <= |buf| && WellFormed(buf[..pos]) && WellFormed(buf[..pos + len])
    ensures |texts| == |fs|
    ensures Covers(Deleted(buf, pos, len), AfterDelete(fs, pos, len), TextsAfterDelete(fs, texts, pos, len),
                   BoundAfterDelete(lo, pos, len))
    decreases |fs|
  {
    hide WellFormed, Covers, Layout, Deleted, AfterDelete, TextsAfterDelete;
    CoversLayout(buf, fs, texts, lo);
    AfterDeleteStep(fs, texts, pos, len);
    var buf', lo' := Deleted(buf, pos, len), BoundAfterDelete(lo, pos, len);
    CoversNothing(buf', lo');
    if fs != [] {
      CoversFirst(buf, fs, texts, lo);
      var f := fs[0];
      var fs', texts' := AfterDelete(fs[1..], pos, len), TextsAfterDelete(fs[1..], texts[1..], pos, len);
      DeleteKeepsFolds(buf, pos, len, fs[1..], texts[1..], f.end);
      DeletedSlices(buf, pos, len, f.start, f.end);
      if pos + len <= f.start {
        BoundaryAfterDelete(buf, pos, len, f.start);
        BoundaryAfterDelete(buf, pos, len, f.end);
        CoversCons(buf', Fold(f.start - len, f.end - len), texts[0], fs', texts', lo');
      } else if pos >= f.end {
        CoversFrom(buf', fs', texts', BoundAfterDelete(f.end, pos, len), f.end);
        CoversCons(buf', f, texts[0], fs', texts', lo');
      } else {
        CoversFrom(buf', fs', texts', BoundAfterDelete(f.end, pos, len), lo');
      }
    }
  }

  /** No fold touches [start, end). */
  predicate Clear(fs: seq<Fold>, start: nat, end: nat) {
    forall i :: 0 <= i < |fs| ==> fs[i].end <= start || end <= fs[i].start
  }

  /** The inserted text itself lies in no fold. */
  lemma {:induction false} InsertClear(fs: seq<Fold>, pos: nat, len: nat)
    ensures Clear(AfterInsert(fs, pos, len), pos, pos + len)
  {
    if fs != [] { InsertClear(fs[1..], pos, len); }
  }

  /** linenoiseFoldAdd as a function on a list with room. */
  function Add(fs: seq<Fold>, f: Fold): (r: seq<Fold>)
    ensures |r| == |fs| + 1
  {
    if fs == [] then [f]
    else if f.start < fs[0].start then [f] + fs
    else [fs[0]] + Add(fs[1..], f)
  }

  ghost function AddText(fs: seq<Fold>, texts: seq<seq<Byte>>, f: Fold, text: seq<Byte>): (r: seq<seq<Byte>>)
    requires |texts| == |fs|
  {
    if fs == [] then [text]
    else if f.start < fs[0].start then [text] + texts
    else [texts[0]] + AddText(fs[1..], texts[1..], f, text)
  }

  lemma {:induction false} AddKeepsFolds(buf: seq<Byte>, fs: seq<Fold>, texts: seq<seq<Byte>>, f: Fold, lo: int)
    requires Covers(buf, fs, texts, lo) && 0 <= lo <= f.start < f.end <= |buf| && Clear(fs, f.start, f.end)
    requires WellFormed(buf[..f.start]) && WellFormed(buf[..f.end])
    ensures Covers(buf, Add(fs, f), AddText(fs, texts, f, buf[f.start..f.end]), lo)
  {
    var text := buf[f.start..f.end];
    if fs == [] {
    } else if f.start < fs[0].start {
      assert f.end <= fs[0].start;
      assert ([f] + fs)[1..] == fs && ([text] + texts)[1..] == texts;
      CoversFrom(buf, fs, texts, lo, lo);
    } else {
      assert fs[0].end <= f.start;
      AddKeepsFolds(buf, fs[1..], texts[1..], f, fs[0].end);
      var r, rt := Add(fs[1..], f), AddText(fs[1..], texts[1..], f, text);
      assert ([fs[0]] + r)[1..] == r && ([texts[0]] + rt)[1..] == rt;
    }
  }
}
