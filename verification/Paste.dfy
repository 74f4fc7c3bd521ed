/** Bracketed paste: finding the terminator in a stream that may pause anywhere,
    and what a finished payload does to the line. */
module Paste {
  import opened Utf8
  import opened Grapheme
  import opened Folds
  import opened EditLine
  import opened Keys
  import opened Editing

  /** ESC [ 2 0 1 ~ */
  const END: seq<Byte> := [27, 91, 50, 48, 49, 126]

  const CR: Byte := 13
  const TAB: Byte := 9
  const FOLD_THRESHOLD := 200
  const MAX_BYTES := 1024 * 1024

  /** No terminator anywhere in `s`. */
  predicate Unended(s: seq<Byte>) {
    forall i :: 0 <= i <= |s| - |END| ==> s[i..][..|END|] != END
  }

  /** `s` is a payload and its terminator, and the terminator is the first one. */
  predicate Payload(s: seq<Byte>, payload: seq<Byte>) {
    s == payload + END && forall i :: 0 <= i < |payload| ==> s[i..][..|END|] != END
  }

  /** The matcher after reading `seen`: all but the last `matched` bytes are settled,
      those are the start of a terminator, and no earlier position can be one. */
  ghost predicate Matching(seen: seq<Byte>, matched: nat) {
    && matched < |END| && matched <= |seen|
    && seen[|seen| - matched..] == END[..matched]
    && (forall i :: 0 <= i < |seen| - matched ==> !(seen[i..] <= END))
    && Unended(seen)
  }

  /** What is collected of the settled bytes: all of them, unless there was ever
      more than there is room for. */
  predicate Collected(settled: seq<Byte>, data: seq<Byte>, overflowed: bool, room: nat) {
    if overflowed then |settled| > room else data == settled && |data| <= room
  }

  lemma MatchNothing()
    ensures Matching([], 0)
  {
  }

  lemma Later(seen: seq<Byte>, c: Byte, i: nat)
    requires i < |seen| && !(seen[i..] <= END)
    ensures !((seen + [c])[i..] <= END)
  {
    assert (seen + [c])[i..] == seen[i..] + [c];
  }

  lemma MatchByte(seen: seq<Byte>, matched: nat, c: Byte)
    requires Matching(seen, matched) && c == END[matched] && matched + 1 < |END|
    ensures Matching(seen + [c], matched + 1)
  {
    var s := seen + [c];
    assert s[|s| - matched - 1..] == seen[|seen| - matched..] + [c];
    forall i | 0 <= i < |seen| - matched ensures !(s[i..] <= END) { Later(seen, c, i); }
    StillUnended(seen, matched, c);
  }

  /** A new terminator can only end where the match does. */
  lemma StillUnended(seen: seq<Byte>, matched: nat, c: Byte)
    requires Matching(seen, matched)
    ensures forall i :: 0 <= i <= |seen| + 1 - |END| && i < |seen| - matched ==> (seen + [c])[i..][..|END|] != END
    ensures !(matched + 1 == |END| && c == END[matched]) ==> Unended(seen + [c])
  {
    var s := seen + [c];
    forall i | 0 <= i <= |s| - |END| && (i < |seen| - matched || !(matched + 1 == |END| && c == END[matched]))
      ensures s[i..][..|END|] != END
    {
      if i + |END| <= |seen| {
        assert s[i..][..|END|] == seen[i..][..|END|];
      } else if i < |seen| - matched {
        Later(seen, c, i);
        assert s[i..][..|END|] == s[i..];
      } else {
        assert i == |seen| - matched && matched == 5;
        assert s[i..][..|END|][5] == c;
      }
    }
  }

  lemma MatchEnd(seen: seq<Byte>, c: Byte)
    requires Matching(seen, |END| - 1) && c == END[|END| - 1]
    ensures Payload(seen + [c], seen[..|seen| - (|END| - 1)])
  {
    StillUnended(seen, |END| - 1, c);
    assert seen + [c] == seen[..|seen| - 5] + (seen[|seen| - 5..] + [c]);
    assert seen[|seen| - 5..] + [c] == END;
  }

  lemma NotPrefix(x: seq<Byte>, j: nat)
    requires j < |END| && j < |x| && x[j] != END[j]
    ensures !(x <= END)
  {
  }

  /** On a mismatch everything held back is settled, and the byte itself may only
      start a new terminator. */
  lemma MatchFails(seen: seq<Byte>, matched: nat, c: Byte)
    requires Matching(seen, matched) && c != END[matched]
    ensures c == END[0] ==> matched > 0
    ensures Matching(seen + [c], if c == END[0] then 1 else 0)
  {
    var s := seen + [c];
    StillUnended(seen, matched, c);
    var m := if c == END[0] then 1 else 0;
    forall i | 0 <= i < |s| - m ensures !(s[i..] <= END) {
      if i < |seen| - matched {
        Later(seen, c, i);
      } else {
        var k := i - (|seen| - matched);
        assert s[i..][0] == s[i];
        if k == 0 {
          assert s[i..][matched] == s[|seen|] == c;
          NotPrefix(s[i..], matched);
        } else if k < matched {
          assert s[i] == seen[|seen| - matched..][k] == END[k];
          NotPrefix(s[i..], 0);
        } else {
          assert s[i] == c;
          NotPrefix(s[i..], 0);
        }
      }
    }
    assert s[|s| - m..] == END[..m];
  }

  /** The first terminator is where any reading of the stream finds it. */
  lemma PayloadUnique(s: seq<Byte>, a: seq<Byte>, b: seq<Byte>, t: seq<Byte>)
    requires Payload(s, a) && Payload(t, b) && s <= t
    ensures a == b && s == t
  {
    assert s[|a|..] == END;
    assert t[|a|..][..|END|] == t[..|s|][|a|..] == s[|a|..];
  }

  /** CR and CRLF become LF. */
  function Normalized(t: seq<Byte>): (r: seq<Byte>)
    ensures |r| <= |t|
    decreases |t|
  {
    if t == [] then []
    else if t[0] == CR then [NEWLINE] + Normalized(if |t| > 1 && t[1] == NEWLINE then t[2..] else t[1..])
    else [t[0]] + Normalized(t[1..])
  }

  lemma {:induction false} NormalizedIdempotent(t: seq<Byte>)
    ensures CR !in Normalized(t) && Normalized(Normalized(t)) == Normalized(t)
    decreases |t|
  {
    if t != [] {
      var rest := if t[0] == CR && |t| > 1 && t[1] == NEWLINE then t[2..] else t[1..];
      NormalizedIdempotent(rest);
      assert Normalized(t)[1..] == Normalized(rest);
    }
  }

  /** Texts are normalized apart where no CRLF is cut. */
  lemma {:induction false} NormalizedAppend(a: seq<Byte>, b: seq<Byte>)
    requires a == [] || b == [] || a[|a| - 1] != CR || b[0] != NEWLINE
    ensures Normalized(a + b) == Normalized(a) + Normalized(b)
    decreases |a|
  {
    hide Normalized;
    OneNormalized(0);
    if a == [] {
      assert a + b == b;
    } else {
      var n := Took(a, 0);
      NormalizedFrom(a, 0);
      NormalizedFrom(a + b, 0);
      assert (a + b)[0] == a[0] && Took(a + b, 0) == n;
      NormalizedAppend(a[n..], b);
      assert a[0..] == a && (a + b)[0..] == a + b && (a + b)[n..] == a[n..] + b;
    }
  }

  /** A CR, alone or in front of a LF, becomes one LF, and any other byte is kept. */
  lemma NormalizedEach(a: seq<Byte>, c: Byte, b: seq<Byte>)
    ensures c == 13 && (b == [] || b[0] != 10) ==> Normalized(a + [c] + b) == Normalized(a) + [10] + Normalized(b)
    ensures Normalized(a + [13, 10] + b) == Normalized(a) + [10] + Normalized(b)
    ensures c != 13 && (c != 10 || a == [] || a[|a| - 1] != 13) ==>
      Normalized(a + [c] + b) == Normalized(a) + [c] + Normalized(b)
  {
    hide Normalized;
    OneNormalized(c);
    if c != 10 || a == [] || a[|a| - 1] != 13 { NormalizedAppend(a, [c]); }
    if c != 13 || b == [] || b[0] != 10 { NormalizedAppend(a + [c], b); }
    NormalizedAppend(a, [13, 10]);
    NormalizedAppend(a + [13, 10], b);
  }

  lemma OneNormalized(c: Byte)
    ensures Normalized([c]) == if c == 13 then [10] else [c]
    ensures Normalized([13, 10]) == [10] && Normalized([]) == []
  {
  }

  /** What is left of a text without CR and LF. */
  function WithoutLineEnds(t: seq<Byte>): seq<Byte> {
    if t == [] then [] else (if t[0] == 13 || t[0] == 10 then [] else [t[0]]) + WithoutLineEnds(t[1..])
  }

  lemma {:induction false} NormalizedKeeps(t: seq<Byte>)
    ensures WithoutLineEnds(Normalized(t)) == WithoutLineEnds(t)
    decreases |t|
  {
    if t != [] {
      var rest := if t[0] == CR && |t| > 1 && t[1] == NEWLINE then t[2..] else t[1..];
      NormalizedKeeps(rest);
      assert Normalized(t)[1..] == Normalized(rest);
      if t[0] == CR && |t| > 1 && t[1] == NEWLINE { assert WithoutLineEnds(t[1..]) == WithoutLineEnds(t[2..]); }
    }
  }

  /** Every newline written the way some terminals send it. */
  function WithCrLf(t: seq<Byte>): seq<Byte> {
    if t == [] then [] else (if t[0] == NEWLINE then [CR, NEWLINE] else [t[0]]) + WithCrLf(t[1..])
  }

  lemma {:induction false} NormalizedInverts(t: seq<Byte>)
    requires CR !in t
    ensures Normalized(WithCrLf(t)) == t && Normalized(t) == t
  {
    if t != [] {
      NormalizedInverts(t[1..]);
      var rest := WithCrLf(t[1..]);
      if t[0] == NEWLINE { assert WithCrLf(t)[2..] == rest; }
      else { assert WithCrLf(t)[1..] == rest; }
    }
  }

  /** Code points that may be pasted. */
  predicate Pasteable(cp: int) {
    !(cp < 32 && cp != NEWLINE && cp != TAB) && cp != 127 && !(0x80 <= cp <= 0x9F)
  }

  predicate AllPasteable(cps: seq<int>) {
    forall i :: 0 <= i < |cps| ==> Pasteable(cps[i])
  }

  ghost predicate Clean(t: seq<Byte>) {
    WellFormed(t) && AllPasteable(CodePoints(t))
  }

  lemma {:induction false} CleanInsertable(t: seq<Byte>)
    requires Clean(t)
    ensures Insertable(t)
    decreases |t|
  {
    if t != [] {
      var (n, cp) := Decode(t);
      var rest := t[n..];
      assert CodePoints(t) == [cp] + CodePoints(rest);
      assert AllPasteable(CodePoints(rest)) by {
        forall i | 0 <= i < |CodePoints(rest)| ensures Pasteable(CodePoints(rest)[i]) {
          assert CodePoints(t)[i + 1] == CodePoints(rest)[i];
        }
      }
      CleanInsertable(rest);
      EncodeDecode(t);
      EncodingInsertable(cp) by { assert Pasteable(CodePoints(t)[0]); }
      assert t == t[..n] + rest;
    }
  }

  /** A byte that may stand at `i`: not a control byte but newline and tab, not DEL,
      and not the lead of a C1 control. */
  predicate Allowed(t: seq<Byte>, i: nat)
    requires i < |t|
  {
    && (t[i] >= 32 || t[i] == 10 || t[i] == 9) && t[i] != 127
    && !(t[i] == 0xC2 && i + 1 < |t| && t[i + 1] < 0xA0)
  }

  /** Clean text by its bytes. */
  lemma {:induction false} CleanBytes(t: seq<Byte>)
    requires WellFormed(t)
    ensures Clean(t) <==> forall i :: 0 <= i < |t| ==> Allowed(t, i)
    decreases |t|
  {
    hide Decode, Clean;
    if t == [] {
      EmptyClean();
    } else {
      var (n, cp) := Decode(t);
      var rest := t[n..];
      CleanStep(t);
      CleanBytes(rest);
      EncodeDecode(t);
      AllowedFirst(t, cp);
      assert forall i :: 0 <= i < |rest| ==> t[n + i] == rest[i] && Allowed(t, n + i) == Allowed(rest, i);
      assert forall i :: n <= i < |t| ==> t[i] == rest[i - n] && Allowed(t, i) == Allowed(rest, i - n);
    }
  }

  lemma EmptyClean()
    ensures Clean([])
  {
  }

  lemma AllowedFirst(t: seq<Byte>, cp: int)
    requires Scalar(cp) && |Encode(cp)| <= |t| && t[..|Encode(cp)|] == Encode(cp)
    ensures Pasteable(cp) <==> forall i :: 0 <= i < |Encode(cp)| ==> Allowed(t, i)
  {
    EncodeShape(cp);
    var e := Encode(cp);
    assert forall i :: 0 <= i < |e| ==> t[i] == e[i];
    if cp >= 0x80 && cp < 0x800 { assert e[0] == 0xC0 + cp / 64 && e[1] == 0x80 + cp % 64; }
    if !Pasteable(cp) { assert !Allowed(t, 0); }
  }

  predicate ShouldFold(t: seq<Byte>) {
    NEWLINE in t || |t| >= FOLD_THRESHOLD
  }

  /** Bytes a paste may still bring. */
  function Room(l: Line, cap: nat): (r: nat) {
    if |l.folds| == MAX_FOLDS then 0
    else if |l.buf| >= cap then 0
    else if cap - |l.buf| > MAX_BYTES then MAX_BYTES
    else cap - |l.buf|
  }

  /** Text inserted and shown as one fold. */
  ghost function TypeFolded(e: Edit, cap: nat, t: seq<Byte>): (r: Edit)
    requires Good(e, cap) && Insertable(t) && t != [] && |e.line.buf| + |t| <= cap && |e.line.folds| < MAX_FOLDS
    ensures Good(r, cap)
  {
    hide WellFormed, Covers, AfterInsert, Add, AddText;
    var f := Fold(e.line.pos, e.line.pos + |t|);
    var typed := Type(e, cap, t);
    FoldedSound(e, cap, t);
    typed.(line := typed.line.(folds := Add(typed.line.folds, f)), texts := AddText(typed.line.folds, typed.texts, f, t))
  }

  lemma FoldedSound(e: Edit, cap: nat, t: seq<Byte>)
    requires Good(e, cap) && Insertable(t) && t != [] && |e.line.buf| + |t| <= cap && |e.line.folds| < MAX_FOLDS
    ensures var r, f := Type(e, cap, t), Fold(e.line.pos, e.line.pos + |t|);
      && |r.texts| == |r.line.folds|
      && Sound(r.line.(folds := Add(r.line.folds, f)), AddText(r.line.folds, r.texts, f, t))
  {
    hide WellFormed, Covers, AfterInsert, Add, AddText;
    var r, f := Type(e, cap, t), Fold(e.line.pos, e.line.pos + |t|);
    var l, buf := e.line, r.line.buf;
    CoversLayout(buf, r.line.folds, r.texts, 0);
    InsertClear(l.folds, l.pos, |t|);
    InsertedParts(l.buf, l.pos, t);
    AddKeepsFolds(buf, r.line.folds, r.texts, f, 0);
  }

  lemma InsertedParts(buf: seq<Byte>, pos: nat, t: seq<Byte>)
    requires pos <= |buf|
    ensures var r := Inserted(buf, pos, t);
      r[..pos] == buf[..pos] && r[pos..pos + |t|] == t && r[pos + |t|..] == buf[pos..]
  {
  }

  /** A finished paste: the payload normalized and inserted when it fits and is
      clean, and otherwise nothing. */
  ghost function Pasted(e: Edit, cap: nat, payload: seq<Byte>): (r: Edit)
    requires Good(e, cap)
    ensures Good(r, cap)
  {
    hide WellFormed, Covers, Boundary, Recallable, ShouldFold, Clean;
    var t := Normalized(payload);
    if payload == [] || |payload| > Room(e.line, cap) || !Clean(t) then e
    else
      CleanInsertable(t);
      NormalizedNonempty(payload);
      if ShouldFold(t) then TypeFolded(e, cap, t) else Type(e, cap, t)
  }

  lemma NormalizedNonempty(t: seq<Byte>)
    ensures t != [] ==> Normalized(t) != []
  {
  }

  /** What a finished paste does to the text: nothing if it is empty, has more than a
      MiB, would overfill the line, finds sixteen folds, or is not clean; otherwise its
      text stands at the cursor, as a fold of its own if it has a newline or 200 bytes. */
  lemma PastedText(e: Edit, cap: nat, payload: seq<Byte>)
    requires Good(e, cap)
    ensures var l, r, t := e.line, Pasted(e, cap, payload), Normalized(payload);
      && l.pos <= |l.buf|
      && if payload == [] || |payload| > 1048576 || |l.buf| + |payload| > cap || |l.folds| == 16 || !Clean(t)
         then r == e
         else
           && t != [] && r.line.buf == l.buf[..l.pos] + t + l.buf[l.pos..] && r.line.pos == l.pos + |t|
           && r.history == e.history && r.index == e.index
           && var kept := AfterInsert(l.folds, l.pos, |t|); var own := Fold(l.pos, l.pos + |t|);
              if 10 in t || |t| >= 200
              then |r.line.folds| == |kept| + 1 && forall f :: f in r.line.folds <==> f in kept || f == own
              else r.line.folds == kept
  {
    hide WellFormed, Covers, Boundary, Recallable, Clean, AfterInsert, Add, AddText;
    BoundaryIn(e.line.buf, e.line.pos) by { assert Boundary(e.line.buf, e.line.pos); }
    NormalizedNonempty(payload);
    var t := Normalized(payload);
    var kept, own := AfterInsert(e.line.folds, e.line.pos, |t|), Fold(e.line.pos, e.line.pos + |t|);
    forall f: Fold ensures f in Add(kept, own) <==> f in kept || f == own { AddIs(kept, own, f); }
  }

  lemma {:induction false} AddIs(fs: seq<Fold>, own: Fold, f: Fold)
    ensures f in Add(fs, own) <==> f in fs || f == own
  {
    if fs != [] {
      AddIs(fs[1..], own, f);
      assert [fs[0]] + fs[1..] == fs;
    }
  }

  /** How many bytes the pass reads at `r`, and the byte it writes. */
  function Took(t: seq<Byte>, r: nat): (n: nat)
    requires r < |t|
    ensures r + n <= |t| && n > 0
  {
    if t[r] == CR && r + 1 < |t| && t[r + 1] == NEWLINE then 2 else 1
  }

  function Wrote(c: Byte): Byte {
    if c == CR then NEWLINE else c
  }

  lemma NormalizedFrom(t: seq<Byte>, r: nat)
    requires r < |t|
    ensures Normalized(t[r..]) == [Wrote(t[r])] + Normalized(t[r + Took(t, r)..])
  {
    assert t[r..][1..] == t[r + 1..];
    if r + 1 < |t| { assert t[r..][1] == t[r + 1] && t[r..][2..] == t[r + 2..]; }
  }

  /** linenoiseEditPaste's in-place CR and CRLF to LF pass. */
  method Normalize(data: seq<Byte>) returns (t: seq<Byte>)
    ensures t == Normalized(data)
  {
    hide Normalized;
    var buf: seq<Byte> := data;
    var r, w := 0, 0;
    assert data[0..] == data;
    while r < |data|
      invariant 0 <= w <= r <= |data| == |buf|
      invariant forall i :: r <= i < |data| ==> buf[i] == data[i]
      invariant buf[..w] + Normalized(data[r..]) == Normalized(data)
    {
      NormalizedFrom(data, r);
      ghost var done := buf[..w];
      if buf[r] == CR {
        buf := buf[w := NEWLINE];
        r := r + (if r + 1 < |data| && buf[r + 1] == NEWLINE then 2 else 1);
      } else {
        buf := buf[w := buf[r]];
        r := r + 1;
      }
      w := w + 1;
      assert buf[..w] == done + [buf[w - 1]];
    }
    t := buf[..w];
    assert data[r..] == [];
    assert Normalized([]) == [] by { NormalizedEmpty(); }
  }

  lemma NormalizedEmpty()
    ensures Normalized([]) == []
  {
  }

  /** The paste's check of the normalized bytes accepts exactly clean text. */
  method CheckClean(t: seq<Byte>) returns (ok: bool)
    ensures ok == Clean(t)
  {
    hide Decode;
    var pos := 0;
    assert t[0..] == t;
    while pos < |t|
      invariant 0 <= pos <= |t| && Clean(t) == Clean(t[pos..])
    {
      ghost var rest := t[pos..];
      var (n, cp) := Decode(t[pos..]);
      CleanStep(rest);
      if n == 0 || (n == 1 && t[pos] >= 0x80) || (cp < 32 && cp != NEWLINE && cp != TAB) || cp == 127 || 0x80 <= cp <= 0x9F {
        return false;
      }
      pos := pos + n;
      assert rest[n..] == t[pos..];
    }
    return true;
  }

  lemma CleanStep(s: seq<Byte>)
    requires s != []
    ensures var (n, cp) := Decode(s);
      Clean(s) <==> n > 0 && !(n == 1 && s[0] >= 0x80) && Pasteable(cp) && Clean(s[n..])
  {
    hide Decode;
    var (n, cp) := Decode(s);
    if WellFormed(s) {
      var cps, rest := CodePoints(s), CodePoints(s[n..]);
      assert cps == [cp] + rest;
      if AllPasteable(cps) {
        forall i | 0 <= i < |rest| ensures Pasteable(rest[i]) { assert cps[i + 1] == rest[i]; }
        assert Pasteable(cps[0]);
      }
    }
  }
}
