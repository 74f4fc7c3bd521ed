/** The coordinator's side of one span: its own prefix stage, the bounded window
    of chunks in flight, and the loop that feeds the worker and collects rows. */
module Coordinator {
  import opened Stages
  import opened Wire

  /** The MTP head pairs every token with the final row at its position. */
  datatype Caught = Caught(pos: nat, token: Token, row: Row)

  function CaughtUp(m: Model, hist: seq<Token>): (cs: seq<Caught>)
    ensures |cs| == |hist|
  {
    seq(|hist|, i requires 0 <= i < |hist| => Caught(i, hist[i], FinalRow(m, hist[..i + 1])))
  }

  function NewlyCaught(tokens: seq<Token>, pos: nat, rows: seq<Row>): (cs: seq<Caught>)
    requires |tokens| == |rows|
    ensures |cs| == |tokens|
  {
    seq(|tokens|, j requires 0 <= j < |tokens| => Caught(pos + j, tokens[j], rows[j]))
  }

  /** The coordinator's prefix stage of one session: the tokens its layers have
      consumed, an open speculative transaction, the MTP history, and the row
      whose projection is the session's current logits.  Every operation may
      fail for reasons of its own. */
  class Stage {
    const model: Model
    const ctx: nat
    /** The largest batch it takes. */
    const cap: nat
    var hist: seq<Token>
    var spec: bool
    var specPos: nat
    var caught: seq<Caught>
    var projected: Row
    /** How often it has failed for reasons of its own, or its caller has cancelled. */
    ghost var trouble: nat
    /** How often it has been emptied. */
    ghost var resets: nat

    constructor (model: Model, ctx: nat, cap: nat)
      ensures this.model == model && this.ctx == ctx && this.cap == cap && hist == [] && !spec && caught == []
    {
      this.model, this.ctx, this.cap := model, ctx, cap;
      hist, spec, specPos, caught, projected, trouble, resets := [], false, 0, [], [], 0, 0;
    }

    /** Something out of the model's sight may go wrong here. */
    method Trouble() returns (wrong: bool)
      modifies this`trouble
      ensures trouble >= old(trouble) && (wrong ==> trouble > old(trouble))
    {
      wrong := *;
      if wrong { trouble := trouble + 1; }
    }

    method Reset()
      modifies this`hist, this`spec, this`caught, this`resets
      ensures hist == [] && !spec && caught == [] && resets == old(resets) + 1
    {
      hist, spec, caught, resets := [], false, [], resets + 1;
    }

    method Eval(tokens: seq<Token>, pos0: nat) returns (ok: bool, rows: seq<Row>)
      modifies this`hist, this`trouble
      ensures ok ==> tokens != [] && pos0 == |old(hist)| && pos0 + |tokens| <= ctx && InVocab(model, tokens)
      ensures ok ==> hist == old(hist) + tokens && rows == PrefixRows(model, hist, pos0, pos0 + |tokens|)
      ensures ok && spec ==> |tokens| == 1 && pos0 < specPos + VERIFY_MAX
      ensures !ok ==> hist == old(hist)
      ensures trouble >= old(trouble)
      ensures !ok ==>
        || trouble > old(trouble)
        || tokens == [] || pos0 != |old(hist)| || pos0 + |tokens| > ctx || !InVocab(model, tokens)
        || (spec && (|tokens| != 1 || pos0 >= specPos + VERIFY_MAX))
    {
      rows := [];
      if tokens == [] || pos0 != |hist| || pos0 > ctx || |tokens| > ctx - pos0
         || exists i :: 0 <= i < |tokens| && (tokens[i] < 0 || tokens[i] >= model.nVocab) {
        return false, rows;
      }
      if spec && (|tokens| != 1 || |hist| - specPos >= VERIFY_MAX) { return false, rows; }
      var wrong := Trouble();
      if wrong { return false, rows; }
      hist := hist + tokens;
      rows := PrefixRows(model, hist, pos0, pos0 + |tokens|);
      return true, rows;
    }

    method SpecBegin() returns (ok: bool)
      modifies this`spec, this`specPos, this`trouble
      ensures ok ==> !old(spec) && spec && specPos == |hist|
      ensures !ok ==> spec == old(spec)
      ensures trouble >= old(trouble) && (!ok && !old(spec) ==> trouble > old(trouble))
    {
      if spec { return false; }
      var wrong := Trouble();
      if wrong { return false; }
      spec, specPos := true, |hist|;
      return true;
    }

    /** Keep the saved frontier plus the first `count` speculative tokens. */
    method SpecCommit(count: nat) returns (ok: bool)
      requires spec ==> specPos <= |hist|
      modifies this`spec, this`hist, this`trouble
      ensures ok ==> old(spec) && !spec && 1 <= count <= |old(hist)| - specPos
                     && hist == old(hist)[..specPos + count]
      ensures trouble >= old(trouble)
      ensures !ok && old(spec) && 1 <= count <= |old(hist)| - specPos ==> trouble > old(trouble)
    {
      if !spec || count == 0 || count > |hist| - specPos { return false; }
      var wrong := Trouble();
      if wrong { return false; }
      hist, spec := hist[..specPos + count], false;
      return true;
    }

    method Catchup(tokens: seq<Token>, pos: nat, rows: seq<Row>) returns (ok: bool)
      requires |tokens| == |rows|
      modifies this`caught, this`trouble
      ensures ok ==> caught == old(caught) + NewlyCaught(tokens, pos, rows)
      ensures trouble >= old(trouble) && (!ok ==> trouble > old(trouble) || tokens == [] || |tokens| > cap)
    {
      if tokens == [] || |tokens| > cap { return false; }
      var wrong := Trouble();
      if wrong { return false; }
      caught := caught + NewlyCaught(tokens, pos, rows);
      return true;
    }

    method Project(row: Row) returns (ok: bool)
      modifies this`projected, this`trouble
      ensures ok ==> projected == row
      ensures trouble >= old(trouble) && (!ok ==> trouble > old(trouble))
    {
      var wrong := Trouble();
      if wrong { return false; }
      projected := row;
      return true;
    }
  }

  /** What the two ends agreed on plus the coordinator's options; zero means the
      option was not given. */
  datatype Setup = Setup(model: Model, info: Info, peer: Info, chunk: nat, window: nat)
  {
    ghost predicate Valid() {
      && model.WellFormed()
      && info.nEmbd == peer.nEmbd == model.nEmbd
      && 16 + (1 + model.nEmbd) * 4 <= MAX_FRAME
      && info.prefillCap > 0 && peer.prefillCap > 0
      && window <= 64
      && (info.mtp ==> info.speculation && peer.speculation)
    }

    function Window(): (w: nat)
      ensures w > 0
    { if window > 0 then window else 2 }

    /** How many rows fit one frame. */
    function FrameCap(): nat {
      Quotient(MAX_FRAME - 16, (1 + model.nEmbd) * 4)
    }

    function WireCap(): nat {
      var w := if chunk > 0 && peer.prefillCap > chunk then chunk else peer.prefillCap;
      if w > FrameCap() then FrameCap() else w
    }

    /** Tokens per chunk. */
    function Cap(verify: bool, count: nat): nat {
      var c0 := if verify then 1 else info.prefillCap;
      var c1 := if c0 > count then count else c0;
      if c1 > WireCap() then WireCap() else c1
    }

    /** The payload bytes of an n-token chunk. */
    function FrameBytes(n: nat): nat {
      16 + n * (1 + model.nEmbd) * 4
    }

    lemma SmallerFits(n: nat, cap: nat)
      requires n <= cap
      ensures FrameBytes(n) <= FrameBytes(cap)
    {
      MulLe(n, cap, 1 + model.nEmbd);
    }

    lemma CapFits(verify: bool, count: nat)
      requires Valid() && count > 0
      ensures 1 <= Cap(verify, count) <= count
      ensures Cap(verify, count) <= peer.prefillCap
      ensures !verify ==> Cap(verify, count) <= info.prefillCap
      ensures verify ==> Cap(verify, count) == 1
      ensures FrameBytes(Cap(verify, count)) <= MAX_FRAME
    {
      var w := (1 + model.nEmbd) * 4;
      var n := Cap(verify, count);
      assert FrameCap() >= 1;
      assert FrameCap() * w <= MAX_FRAME - 16;
      assert n <= FrameCap();
      assert n * w <= FrameCap() * w by { MulLe(n, FrameCap(), w); }
      assert n * w == n * (1 + model.nEmbd) * 4;
    }

    /** A chunk is as long as everything that limits it allows. */
    lemma CapLargest(verify: bool, count: nat, n: nat)
      requires Valid() && n > 0
      ensures n <= Cap(verify, count) <==>
        && n <= count && n <= peer.prefillCap && n <= (if verify then 1 else info.prefillCap)
        && (chunk > 0 ==> n <= chunk) && FrameBytes(n) <= MAX_FRAME
    {
      hide Setup.FrameBytes, Setup.FrameCap;
      FrameFits(n);
    }

    lemma FrameFits(n: nat)
      requires Valid()
      ensures FrameBytes(n) <= MAX_FRAME <==> n <= FrameCap()
    {
      var w := (1 + model.nEmbd) * 4;
      Quotients(MAX_FRAME - 16, n, w);
      Thrice(n, 1 + model.nEmbd);
    }
  }

  function Quotient(a: nat, b: nat): (q: nat)
    requires b > 0
    ensures q * b <= a < q * b + b
  {
    a / b
  }

  lemma Quotients(m: nat, n: nat, w: nat)
    requires w > 0
    ensures n * w <= m <==> n <= Quotient(m, w)
  {
    var q := Quotient(m, w);
    if n <= q { MulLe(n, q, w); } else { MulLe(q + 1, n, w); }
  }

  lemma Thrice(n: nat, e: nat)
    ensures n * e * 4 == n * (e * 4)
  {
  }

  lemma MulLe(a: nat, b: nat, w: nat)
    requires a <= b
    ensures a * w <= b * w
  {
    assert b * w == a * w + (b - a) * w;
  }

  /** One chunk in flight: where it ends, its length, its index in the span. */
  datatype Chunk = Chunk(end: nat, count: nat, index: nat)

  /** Chunks are non-empty, adjoin, start at the span's start and cover `i`. */
  ghost predicate Contiguous(chunks: seq<Chunk>, pos0: nat, i: nat) {
    && (forall k :: 0 <= k < |chunks| ==>
          chunks[k].count > 0 && chunks[k].end == pos0 + chunks[k].index + chunks[k].count)
    && (forall k, l :: 0 <= k && l == k + 1 && l < |chunks| ==> chunks[l].index == chunks[k].index + chunks[k].count)
    && (chunks == [] ==> i == 0)
    && (chunks != [] ==> chunks[0].index == 0 && i == chunks[|chunks| - 1].index + chunks[|chunks| - 1].count)
  }

  /** The 64-slot ring holds every live chunk at its number modulo 64. */
  ghost predicate Ring(pending: seq<Chunk>, chunks: seq<Chunk>, head: nat, tail: nat) {
    && |pending| == 64 && head <= tail == |chunks| && tail - head <= 64
    && forall k :: head <= k < tail ==> pending[k % 64] == chunks[k]
  }

  lemma Mod64Distinct(k: nat, t: nat)
    requires k < t < k + 64
    ensures k % 64 != t % 64
  {
    assert t - k == 64 * (t / 64 - k / 64) + (t % 64 - k % 64);
  }

  /** Filling the next slot never overwrites a live one while the window is not full. */
  lemma RingPush(pending: seq<Chunk>, chunks: seq<Chunk>, head: nat, tail: nat, c: Chunk)
    requires Ring(pending, chunks, head, tail) && tail - head < 64
    ensures Ring(pending[tail % 64 := c], chunks + [c], head, tail + 1)
  {
    forall k | head <= k < tail + 1
      ensures pending[tail % 64 := c][k % 64] == (chunks + [c])[k]
    {
      if k < tail { Mod64Distinct(k, tail); }
    }
  }

  /** How the span's rows are used: Plain projects the last row, Verify picks a
      token after every row, Prepared moves rows evaluated earlier. */
  datatype Mode = Plain | Verify(eos: Token, excluded: int) | Prepared(final: bool)

  /** What the worker owes for one chunk of the history `all`. */
  ghost function Rows(m: Model, all: seq<Token>, c: Chunk, mtp: bool, final: bool): seq<Row>
    requires 0 < c.count <= c.end <= |all|
  {
    if mtp then FinalRows(m, all, c.end - c.count, c.end)
    else if final && c.end == |all| then [FinalRow(m, all)]
    else []
  }

  ghost function Owed(m: Model, id: int, all: seq<Token>, c: Chunk, mtp: bool, final: bool): Frame
    requires 0 < c.count <= c.end <= |all|
  {
    ResultFrame(id, c.end, Rows(m, all, c, mtp, final))
  }

  lemma ChunkWords(f: Frame, id: int, lo: nat, flags: Flags, tokens: seq<Token>, rows: seq<Row>, E: nat)
    requires f == WorkFrame(id, lo, flags, tokens, rows) && |rows| == |tokens|
    requires forall i :: 0 <= i < |rows| ==> |rows[i]| == E
    ensures f.kind == KIND_WORK && |f.words| == 4 + |tokens| * (1 + E)
    ensures f.words[0] == id && f.words[1] == lo && f.words[2] == |tokens| && f.words[3] == FlagWord(flags)
    ensures f.words[4..4 + |tokens|] == tokens
    ensures |f.words[4 + |tokens|..]| == |tokens| * E
    ensures GetRows(f.words[4 + |tokens|..], E, |tokens|) == rows
  {
    RowsRoundTrip(rows, E);
    var n := |tokens|;
    assert n * (1 + E) == n + n * E;
    assert f.words[4 + n..] == PutRows(rows);
  }

  lemma SuffixRows(m: Model, all: seq<Token>, lo: nat, n: nat, ps: seq<Pair>)
    requires lo + n <= |all| && ps == Annotate(m, all[..lo + n])
    ensures seq(n, j requires 0 <= j < n => m.suffix(ps[..lo + j + 1])) == FinalRows(m, all, lo, lo + n)
  {
    var out := seq(n, j requires 0 <= j < n => m.suffix(ps[..lo + j + 1]));
    forall j | 0 <= j < n
      ensures out[j] == FinalRows(m, all, lo, lo + n)[j]
    {
      AnnotatePrefix(m, all[..lo + n], lo + j + 1);
      assert all[..lo + n][..lo + j + 1] == all[..lo + j + 1];
      assert ps[..lo + j + 1] == Annotate(m, all[..lo + j + 1]);
      assert FinalRows(m, all, lo, lo + n)[j] == FinalRow(m, all[..lo + j + 1]);
    }
  }

  /** What a WORK frame's flags may be, given the worker and its session. */
  ghost predicate FlagsFit(w: Worker, s: WSession, lo: nat, n: nat, flags: Flags) {
    && flags.reset == (lo == 0)
    && (flags.rows ==> w.peerMtp && w.info.speculation)
    && (!flags.spec ==> !s.spec && !flags.begin)
    && (flags.spec ==> w.peerMtp && w.info.speculation && n == 1 && flags.rows && lo > 0 && flags.begin == !s.spec)
    && (s.spec ==> s.specPos <= lo < s.specPos + VERIFY_MAX)
  }

  lemma AdvanceChunk(w: Worker, ss: map<int, WSession>, id: int, all: seq<Token>, lo: nat, n: nat, flags: Flags)
    requires id in ss && 0 < n && lo + n <= |all|
    requires InVocab(w.model, all[lo..lo + n])
    requires FlagsFit(w, ss[id], lo, n, flags)
    requires lo > 0 ==> ss[id].pairs == Annotate(w.model, all[..lo])
    ensures w.Advance(ss, id, lo, flags, all[lo..lo + n], PrefixRows(w.model, all, lo, lo + n)) == Served(
      ss[id := WSession(ss[id].ctx, Annotate(w.model, all[..lo + n]), flags.spec,
                        if flags.begin then lo else ss[id].specPos)],
      [ResultFrame(id, lo + n, if flags.rows then FinalRows(w.model, all, lo, lo + n)
                               else if flags.logits then [FinalRow(w.model, all[..lo + n])] else [])],
      false)
  {
    var ps := Annotate(w.model, all[..lo + n]);
    AnnotateChunk(w.model, all, lo, lo + n);
    SuffixRows(w.model, all, lo, n, ps);
    assert all[..0] == [];
    assert w.Returned(flags, ps, lo, n) == if flags.rows then FinalRows(w.model, all, lo, lo + n)
                               else if flags.logits then [FinalRow(w.model, all[..lo + n])] else [];
  }

  /** The frame of one chunk, and what the worker does with it: it passes every
      check, extends the session by exactly the chunk, and owes its rows. */
  lemma ServeChunk(w: Worker, ss: map<int, WSession>, id: int, all: seq<Token>,
                   lo: nat, n: nat, flags: Flags, f: Frame)
    requires w.model.WellFormed() && id != 0 && id in ss
    requires 0 < n <= w.info.prefillCap && lo + n <= |all| && lo + n <= ss[id].ctx
    requires InVocab(w.model, all[lo..lo + n])
    requires 16 + n * (1 + w.model.nEmbd) * 4 <= MAX_FRAME
    requires f == WorkFrame(id, lo, flags, all[lo..lo + n], PrefixRows(w.model, all, lo, lo + n))
    requires FlagsFit(w, ss[id], lo, n, flags)
    requires lo > 0 ==> ss[id].pairs == Annotate(w.model, all[..lo])
    ensures w.Serve(ss, f) == Served(
      ss[id := WSession(ss[id].ctx, Annotate(w.model, all[..lo + n]), flags.spec,
                        if flags.begin then lo else ss[id].specPos)],
      [ResultFrame(id, lo + n, if flags.rows then FinalRows(w.model, all, lo, lo + n)
                               else if flags.logits then [FinalRow(w.model, all[..lo + n])] else [])],
      false)
  {
    var tokens, rows := all[lo..lo + n], PrefixRows(w.model, all, lo, lo + n);
    ChunkWords(f, id, lo, flags, tokens, rows, w.model.nEmbd);
    FlagsRoundTrip(flags);
    assert w.Serve(ss, f) == w.Work(ss, id, f.words);
    assert w.WorkShape(ss[id], f.words);
    AdvanceChunk(w, ss, id, all, lo, n, flags);
  }
}
