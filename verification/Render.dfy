/** What the terminal is shown: the buffer with every fold replaced by a marker,
    and where the cursor lands in it. */
module Render {
  import Basics
  import opened Utf8
  import opened Folds
  import opened Editing

  function Bytes(s: string): seq<Byte> {
    if s == "" then [] else [s[0] as int % 256] + Bytes(s[1..])
  }

  /** foldSetRenderedText. */
  function Marker(t: seq<Byte>): seq<Byte> {
    if Lines(t) > 1 then Bytes("[... ") + Bytes(Basics.Decimal(Lines(t))) + Bytes(" pasted lines ...]")
    else Bytes("[... ") + Bytes(Basics.Decimal(|t|)) + Bytes(" pasted chars ...]")
  }

  /** The marker names the number of lines, or of bytes where there is only one line. */
  lemma MarkerReads(t: seq<Byte>)
    ensures var newlines := multiset(t)[10];
      exists d: string ::
        && d != "" && (forall i :: 0 <= i < |d| ==> '0' <= d[i] <= '9')
        && Basics.Value(d) == (if newlines > 0 then newlines + 1 else |t|)
        && Marker(t) == Bytes("[... ") + Bytes(d) + Bytes(if newlines > 0 then " pasted lines ...]" else " pasted chars ...]")
  {
    hide Bytes;
    LinesCount(t);
    var n := if multiset(t)[10] > 0 then multiset(t)[10] + 1 else |t|;
    Basics.DigitString(n);
    assert Basics.Value(Basics.Decimal(n)) == n;
  }

  function MarkerOf(buf: seq<Byte>, f: Fold): seq<Byte>
    requires 0 <= f.start <= f.end <= |buf|
  {
    Marker(buf[f.start..f.end])
  }

  /** What is shown of the buffer from `src` on. */
  function Rendered(buf: seq<Byte>, fs: seq<Fold>, src: nat): seq<Byte>
    requires Layout(fs, src, |buf|) && src <= |buf|
  {
    if fs == [] then buf[src..]
    else buf[src..fs[0].start] + MarkerOf(buf, fs[0]) + Rendered(buf, fs[1..], fs[0].end)
  }

  /** Where a position of the buffer is shown; inside a fold, after its marker. */
  function Shown(buf: seq<Byte>, fs: seq<Fold>, src: nat, pos: nat): nat
    requires Layout(fs, src, |buf|) && src <= pos <= |buf|
  {
    if fs == [] || pos <= fs[0].start then pos - src
    else fs[0].start - src + |MarkerOf(buf, fs[0])|
         + (if pos < fs[0].end then 0 else Shown(buf, fs[1..], fs[0].end, pos))
  }

  /** The folds that end after `pos`. */
  function Following(fs: seq<Fold>, pos: nat): seq<Fold> {
    if fs == [] || pos < fs[0].end then fs else Following(fs[1..], pos)
  }

  /** The cursor is shown right before what follows it in the buffer. */
  lemma {:induction false} ShownBefore(buf: seq<Byte>, fs: seq<Fold>, src: nat, pos: nat)
    requires Layout(fs, src, |buf|) && src <= pos <= |buf| && Clear(fs, pos, pos)
    ensures var rest := Following(fs, pos);
      && Layout(rest, pos, |buf|) && Shown(buf, fs, src, pos) <= |Rendered(buf, fs, src)|
      && Rendered(buf, fs, src)[Shown(buf, fs, src, pos)..] == Rendered(buf, rest, pos)
    decreases |fs|
  {
    hide Marker;
    if fs != [] {
      var f, after := fs[0], Rendered(buf, fs[1..], fs[0].end);
      var front := buf[src..f.start] + MarkerOf(buf, f);
      assert f.end <= pos || pos <= f.start;
      if f.end <= pos {
        assert Clear(fs[1..], pos, pos);
        ShownBefore(buf, fs[1..], f.end, pos);
        assert Rendered(buf, fs, src) == front + after;
        assert (front + after)[|front| + Shown(buf, fs[1..], f.end, pos)..] == after[Shown(buf, fs[1..], f.end, pos)..];
      } else {
        assert buf[src..f.start][pos - src..] == buf[pos..f.start];
        assert Rendered(buf, fs, src)[pos - src..] == buf[pos..f.start] + MarkerOf(buf, f) + after;
      }
    }
  }

  /** The first fold comes after the text before it. */
  lemma FirstFold(buf: seq<Byte>, f: Fold, rest: seq<Fold>, src: nat, pos: nat)
    requires Layout([f] + rest, src, |buf|) && src <= |buf|
    ensures src <= f.start < f.end <= |buf| && Layout(rest, f.end, |buf|)
    ensures Rendered(buf, [f] + rest, src) == buf[src..f.start] + Marker(buf[f.start..f.end]) + Rendered(buf, rest, f.end)
    ensures f.start < pos <= |buf| ==>
      Shown(buf, [f] + rest, src, pos)
      == f.start - src + |Marker(buf[f.start..f.end])| + (if pos < f.end then 0 else Shown(buf, rest, f.end, pos))
  {
    hide Marker;
    assert ([f] + rest)[0] == f && ([f] + rest)[1..] == rest;
  }

  lemma {:induction false} FoldsAround(a: seq<Fold>, f: Fold, b: seq<Fold>, src: nat, len: nat)
    requires Layout(a + [f] + b, src, len)
    ensures src <= f.start < f.end <= len && Layout(a, src, f.start) && Layout(b, f.end, len)
    decreases |a|
  {
    if a == [] {
      assert [] + [f] + b == [f] + b && ([f] + b)[1..] == b;
    } else {
      assert (a + [f] + b)[0] == a[0] && (a + [f] + b)[1..] == a[1..] + [f] + b;
      FoldsAround(a[1..], f, b, a[0].end, len);
    }
  }

  /** Around any fold: what is before it as it would be shown without the rest, its
      marker, which a cursor inside the fold is shown behind, and what follows. */
  lemma {:induction false} RenderedAround(buf: seq<Byte>, a: seq<Fold>, f: Fold, b: seq<Fold>, src: nat, pos: nat)
    requires Layout(a + [f] + b, src, |buf|) && src <= |buf| && f.start < pos < f.end
    ensures src <= f.start < f.end <= |buf| && Layout(a, src, f.start) && Layout(b, f.end, |buf|)
    ensures var before, marker := Rendered(buf[..f.start], a, src), Marker(buf[f.start..f.end]);
      && Rendered(buf, a + [f] + b, src) == before + marker + Rendered(buf, b, f.end)
      && Shown(buf, a + [f] + b, src, pos) == |before| + |marker|
    decreases |a|
  {
    hide Marker, MarkerOf, Rendered, Shown, Layout;
    FoldsAround(a, f, b, src, |buf|);
    var front := buf[..f.start];
    if a == [] {
      assert [] + [f] + b == [f] + b;
      FirstFold(buf, f, b, src, pos);
      LastGap(front, src, src);
      assert front[src..] == buf[src..f.start];
    } else {
      var g, rest := a[0], a[1..] + [f] + b;
      assert a + [f] + b == [g] + rest && [g] + a[1..] == a;
      FirstFold(buf, g, rest, src, pos);
      FirstFold(front, g, a[1..], src, src);
      RenderedAround(buf, a[1..], f, b, g.end, pos);
      assert front[src..g.start] == buf[src..g.start] && front[g.start..g.end] == buf[g.start..g.end];
      var shown := buf[src..g.start] + Marker(buf[g.start..g.end]);
      Basics.Regroup(shown, Rendered(front, a[1..], g.end), Marker(buf[f.start..f.end]));
      Basics.Regroup(shown, Rendered(front, a[1..], g.end) + Marker(buf[f.start..f.end]), Rendered(buf, b, f.end));
    }
  }

  lemma RenderedLeast(buf: seq<Byte>, fs: seq<Fold>, src: nat)
    requires Layout(fs, src, |buf|) && src <= |buf|
    ensures fs != [] ==>
      |Rendered(buf, fs, src)| == fs[0].start - src + |MarkerOf(buf, fs[0])| + |Rendered(buf, fs[1..], fs[0].end)|
  {
    hide MarkerOf;
  }

  /** Moving the cursor right never moves it left on the screen, nor past the end. */
  lemma {:induction false} ShownMonotone(buf: seq<Byte>, fs: seq<Fold>, src: nat, p: nat, q: nat)
    requires Layout(fs, src, |buf|) && src <= p <= q <= |buf|
    ensures Shown(buf, fs, src, p) <= Shown(buf, fs, src, q) <= |Rendered(buf, fs, src)|
    decreases |fs|
  {
    hide MarkerOf;
    RenderedLeast(buf, fs, src);
    if fs != [] && q >= fs[0].end {
      ShownMonotone(buf, fs[1..], fs[0].end, if p < fs[0].end then fs[0].end else p, q);
    }
  }

  /** The first of the two passes: what the folds hide is taken off and what their
      markers need is added. */
  ghost function Replaced(buf: seq<Byte>, fs: seq<Fold>, src: nat): int
    requires Layout(fs, src, |buf|) && src <= |buf|
  {
    if fs == [] then 0
    else |MarkerOf(buf, fs[0])| - (fs[0].end - fs[0].start) + Replaced(buf, fs[1..], fs[0].end)
  }

  lemma {:induction false} RenderedLength(buf: seq<Byte>, fs: seq<Fold>, src: nat)
    requires Layout(fs, src, |buf|) && src <= |buf|
    ensures |Rendered(buf, fs, src)| == |buf| - src + Replaced(buf, fs, src)
    decreases |fs|
  {
    if fs != [] { RenderedLength(buf, fs[1..], fs[0].end); }
  }

  /** memcpy into the render buffer. */
  method Copy(r: array<Byte>, dst: nat, s: seq<Byte>)
    requires dst + |s| <= r.Length
    modifies r
    ensures r[..dst + |s|] == old(r[..dst]) + s
  {
    for i := 0 to |s|
      invariant r[..dst + i] == old(r[..dst]) + s[..i]
    {
      r[dst + i] := s[i];
      assert r[..dst + i + 1] == r[..dst + i] + [s[i]];
    }
  }

  /** A gap and a marker. */
  method Draw(r: array<Byte>, dst: nat, gap: seq<Byte>, marker: seq<Byte>) returns (end: nat)
    requires dst + |gap| + |marker| <= r.Length
    modifies r
    ensures end == dst + |gap| + |marker| && r[..end] == old(r[..dst]) + gap + marker
  {
    Copy(r, dst, gap);
    Copy(r, dst + |gap|, marker);
    end := dst + |gap| + |marker|;
  }

  /** The three tests for the cursor around one fold. */
  method Place(cursor: nat, f: Fold, src: nat, dst: nat, width: nat, was: nat, wasSet: bool) returns (pos: nat, posSet: bool)
    requires 0 <= src <= f.start < f.end && (!wasSet ==> src <= cursor)
    ensures posSet == (wasSet || cursor <= f.end) && (wasSet ==> pos == was)
    ensures !wasSet && posSet ==> pos == if cursor <= f.start then dst + (cursor - src) else dst + (f.start - src) + width
  {
    pos, posSet := was, wasSet;
    var at := dst;
    if !posSet && cursor <= f.start {
      pos := at + (cursor - src);
      posSet := true;
    }
    at := at + (f.start - src);
    if !posSet && cursor < f.end {
      pos := at + width;
      posSet := true;
    }
    at := at + width;
    if !posSet && cursor == f.end {
      pos := at;
      posSet := true;
    }
  }

  /** linenoiseRenderBuffer: the size is computed first, then the gaps and markers
      are copied and the cursor is translated on the way. */
  method RenderBuffer(buf: seq<Byte>, folds: seq<Fold>, cursor: nat) returns (r: array<Byte>, pos: nat)
    requires Layout(folds, 0, |buf|) && cursor <= |buf|
    ensures fresh(r) && r[..] == Rendered(buf, folds, 0)
    ensures pos == Shown(buf, folds, 0, cursor)
  {
    hide MarkerOf, Rendered, Shown, Replaced, Layout;
    var len := RenderLength(buf, folds);
    r := new Byte[len];
    var src: nat := 0;
    var dst: nat := 0;
    pos := 0;
    var posSet := false;
    assert folds[0..] == folds;
    for j := 0 to |folds|
      invariant 0 <= src <= |buf| && Layout(folds[j..], src, |buf|) && dst <= r.Length
      invariant r[..dst] + Rendered(buf, folds[j..], src) == Rendered(buf, folds, 0)
      invariant posSet ==> pos == Shown(buf, folds, 0, cursor)
      invariant !posSet ==> src <= cursor && dst + Shown(buf, folds[j..], src, cursor) == Shown(buf, folds, 0, cursor)
    {
      var f := folds[j];
      OneMarker(buf, folds, j, src);
      var gap, marker := buf[src..f.start], MarkerOf(buf, f);
      if !posSet { OneCursor(buf, folds, j, src, cursor); }
      pos, posSet := Place(cursor, f, src, dst, |marker|, pos, posSet);
      ghost var before, after := r[..dst], Rendered(buf, folds[j + 1..], f.end);
      assert |before| + |gap + marker + after| == len;
      dst := Draw(r, dst, gap, marker);
      Basics.Regroup(before, gap + marker, after);
      Basics.Regroup(before, gap, marker);
      src := f.end;
    }
    LastGap(buf, src, cursor);
    assert folds[|folds|..] == [];
    if !posSet { pos := dst + (cursor - src); }
    assert |r[..dst]| + |buf[src..]| == len;
    Copy(r, dst, buf[src..]);
    assert r[..] == r[..dst + |buf[src..]|];
  }

  lemma OneMarker(buf: seq<Byte>, folds: seq<Fold>, j: nat, src: nat)
    requires j < |folds| && src <= |buf| && Layout(folds[j..], src, |buf|)
    ensures src <= folds[j].start < folds[j].end <= |buf| && Layout(folds[j + 1..], folds[j].end, |buf|)
    ensures Rendered(buf, folds[j..], src)
         == buf[src..folds[j].start] + MarkerOf(buf, folds[j]) + Rendered(buf, folds[j + 1..], folds[j].end)
  {
    assert folds[j..][1..] == folds[j + 1..];
  }

  lemma OneCursor(buf: seq<Byte>, folds: seq<Fold>, j: nat, src: nat, pos: nat)
    requires j < |folds| && src <= pos <= |buf| && Layout(folds[j..], src, |buf|)
    ensures var f := folds[j];
      && src <= f.start < f.end <= |buf| && Layout(folds[j + 1..], f.end, |buf|)
      && Shown(buf, folds[j..], src, pos) ==
           (if pos <= f.start then pos - src
            else f.start - src + |MarkerOf(buf, f)|
                 + (if pos < f.end then 0 else Shown(buf, folds[j + 1..], f.end, pos)))
      && (f.end <= |buf| ==> Shown(buf, folds[j + 1..], f.end, f.end) == 0)
  {
    assert folds[j..][1..] == folds[j + 1..];
  }

  lemma LastGap(buf: seq<Byte>, src: nat, pos: nat)
    requires src <= |buf|
    ensures Rendered(buf, [], src) == buf[src..]
    ensures src <= pos <= |buf| ==> Shown(buf, [], src, pos) == pos - src
  {
  }

  method RenderLength(buf: seq<Byte>, folds: seq<Fold>) returns (len: nat)
    requires Layout(folds, 0, |buf|)
    ensures len == |Rendered(buf, folds, 0)|
  {
    hide MarkerOf, Rendered;
    RenderedLength(buf, folds, 0);
    var l: int := |buf|;
    ghost var src := 0;
    assert folds[0..] == folds;
    for j := 0 to |folds|
      invariant 0 <= src <= |buf| && Layout(folds[j..], src, |buf|)
      invariant l + Replaced(buf, folds[j..], src) == |Rendered(buf, folds, 0)|
    {
      var f := folds[j];
      assert folds[j..][1..] == folds[j + 1..];
      l := l - (f.end - f.start);
      l := l + |MarkerOf(buf, f)|;
      src := f.end;
    }
    assert folds[|folds|..] == [];
    len := l;
  }
}
