/** One span of tokens through both stages: the coordinator's send/receive loop
    over a bounded window of chunks. */
module Span {
  import opened Stages
  import opened Wire
  import opened Coordinator

  /** The fixed facts of one span, for stating what its loop maintains: the
      tokens already in both histories, the span itself, and what the worker was
      going to be when the span began. */
  datatype Scene = Scene(su: Setup, id: int, base: seq<Token>, tokens: seq<Token>, mode: Mode, ghost start: Served)
  {
    ghost function All(): seq<Token> { base + tokens }
    ghost function Pos0(): nat { |base| }
    ghost predicate Final() { mode.Prepared? ==> mode.final }
    ghost function RowAt(j: nat): Row
      requires j < |tokens|
    { FinalRow(su.model, All()[..Pos0() + j + 1]) }
    ghost function TopAt(j: nat): Token
      requires j < |tokens| && mode.Verify?
    { su.model.top(RowAt(j), mode.excluded) }

    /** The worker idles in the state that consumed `base`. */
    ghost predicate Ready() {
      && su.Valid() && tokens != []
      && id != 0 && id in start.sessions && !start.fault && start.replies == []
      && var ws := start.sessions[id];
      && !ws.spec && |base| + |tokens| <= ws.ctx
      && (base != [] ==> ws.pairs == Annotate(su.model, base))
      && (mode.Verify? ==> su.info.mtp && base != [] && |tokens| <= VERIFY_MAX)
    }

    /** The worker's session once the first `i` tokens of the span are served. */
    ghost function SessionAt(i: nat): WSession
      requires id in start.sessions && i <= |tokens|
    {
      var ws := start.sessions[id];
      if i == 0 then ws
      else WSession(ws.ctx, Annotate(su.model, All()[..Pos0() + i]), mode.Verify?,
                    if mode.Verify? then Pos0() else ws.specPos)
    }

    /** Every frame so far passed the worker's checks; the worker's session will
        hold exactly the tokens sent; and exactly the rows of the chunks in
        flight are still owed, oldest first. */
    ghost predicate Wired(future: Served, chunks: seq<Chunk>, head: nat, i: nat)
      requires Ready()
    {
      && head <= |chunks| && i <= |tokens|
      && Contiguous(chunks, Pos0(), i)
      && (forall k :: 0 <= k < |chunks| ==> chunks[k].end <= |All()| && (mode.Verify? ==> chunks[k].count == 1))
      && !future.fault
      && future.sessions == start.sessions[id := SessionAt(i)]
      && |future.replies| == |chunks| - head
      && forall k :: 0 <= k < |chunks| - head ==>
           future.replies[k] == Owed(su.model, id, All(), chunks[head + k], su.info.mtp, Final())
    }
  }

  ghost predicate ServedBy(su: Setup, w: Worker) {
    w.model == su.model && w.info == su.peer && w.peerMtp == su.info.mtp
  }

  /** Tokens whose rows have come back. */
  ghost function Received(chunks: seq<Chunk>, head: nat, i: nat): nat {
    if head < |chunks| then chunks[head].index else i
  }

  lemma {:induction false} ChunkIndexBelow(chunks: seq<Chunk>, pos0: nat, i: nat, k: nat)
    requires Contiguous(chunks, pos0, i) && k < |chunks|
    ensures chunks[k].index + chunks[k].count <= i
    decreases |chunks| - k
  {
    if k + 1 < |chunks| { ChunkIndexBelow(chunks, pos0, i, k + 1); }
  }

  lemma {:induction false} ChunkIndexAtLeast(chunks: seq<Chunk>, pos0: nat, i: nat, k: nat)
    requires Contiguous(chunks, pos0, i) && k < |chunks|
    ensures chunks[k].index >= k
  {
    if k > 0 { ChunkIndexAtLeast(chunks, pos0, i, k - 1); }
  }

  lemma ContiguousSnoc(chunks: seq<Chunk>, pos0: nat, i: nat, n: nat)
    requires Contiguous(chunks, pos0, i) && n > 0
    ensures Contiguous(chunks + [Chunk(pos0 + i + n, n, i)], pos0, i + n)
  {
  }

  function SpanFlags(su: Setup, mode: Mode, pos0: nat, i: nat, last: bool): Flags {
    Flags(pos0 + i == 0, last || mode.Verify?, su.info.mtp, mode.Verify?, mode.Verify? && i == 0)
  }

  lemma FlagsAllowed(sc: Scene, w: Worker, i: nat, n: nat)
    requires sc.Ready() && ServedBy(sc.su, w)
    requires 0 < n && i + n <= |sc.tokens| && (sc.mode.Verify? ==> n == 1)
    ensures FlagsFit(w, sc.SessionAt(i), sc.Pos0() + i, n,
                     SpanFlags(sc.su, sc.mode, sc.Pos0(), i, i + n == |sc.tokens| && sc.Final()))
    ensures sc.Pos0() + i > 0 ==> sc.SessionAt(i).pairs == Annotate(sc.su.model, sc.All()[..sc.Pos0() + i])
    ensures sc.SessionAt(i).ctx == sc.start.sessions[sc.id].ctx
  {
    assert sc.All()[..sc.Pos0()] == sc.base;
  }

  lemma OwedIsServed(sc: Scene, i: nat, n: nat)
    requires sc.Ready() && 0 < n && i + n <= |sc.tokens|
    requires sc.mode.Verify? ==> n == 1
    ensures var lo, all, m := sc.Pos0() + i, sc.All(), sc.su.model;
            var flags := SpanFlags(sc.su, sc.mode, sc.Pos0(), i, i + n == |sc.tokens| && sc.Final());
            && Owed(m, sc.id, all, Chunk(lo + n, n, i), sc.su.info.mtp, sc.Final())
               == ResultFrame(sc.id, lo + n, if flags.rows then FinalRows(m, all, lo, lo + n)
                                             else if flags.logits then [FinalRow(m, all[..lo + n])] else [])
            && sc.SessionAt(i + n) == WSession(sc.SessionAt(i).ctx, Annotate(m, all[..lo + n]), flags.spec,
                                               if flags.begin then lo else sc.SessionAt(i).specPos)
  {
    assert sc.All()[..|sc.All()|] == sc.All();
  }

  lemma SendServe(sc: Scene, w: Worker, ss: map<int, WSession>, i: nat, n: nat, f: Frame)
    requires sc.Ready() && ServedBy(sc.su, w)
    requires 0 < n && i + n <= |sc.tokens| && n <= sc.su.peer.prefillCap
    requires ss == sc.start.sessions[sc.id := sc.SessionAt(i)]
    requires sc.mode.Verify? ==> n == 1
    requires sc.su.FrameBytes(n) <= MAX_FRAME
    requires InVocab(sc.su.model, sc.tokens[i..i + n])
    requires f == SpanFrame(sc, i, n)
    ensures w.Serve(ss, f) == Served(sc.start.sessions[sc.id := sc.SessionAt(i + n)],
              [Owed(sc.su.model, sc.id, sc.All(), Chunk(sc.Pos0() + i + n, n, i), sc.su.info.mtp, sc.Final())], false)
  {
    hide Worker.Serve, Annotate, PrefixRows, FinalRow, FinalRows, InVocab, FlagsFit;
    var all, lo := sc.All(), sc.Pos0() + i;
    var flags := SpanFlags(sc.su, sc.mode, sc.Pos0(), i, i + n == |sc.tokens| && sc.Final());
    assert all[lo..lo + n] == sc.tokens[i..i + n];
    FlagsAllowed(sc, w, i, n);
    ServeChunk(w, ss, sc.id, all, lo, n, flags, f);
    OwedIsServed(sc, i, n);
    assert ss[sc.id := sc.SessionAt(i + n)] == sc.start.sessions[sc.id := sc.SessionAt(i + n)];
  }

  /** The frame of tokens [i, i+n) of the span. */
  ghost function SpanFrame(sc: Scene, i: nat, n: nat): Frame
    requires i + n <= |sc.tokens|
  {
    WorkFrame(sc.id, sc.Pos0() + i,
              SpanFlags(sc.su, sc.mode, sc.Pos0(), i, i + n == |sc.tokens| && sc.Final()),
              sc.tokens[i..i + n], PrefixRows(sc.su.model, sc.All(), sc.Pos0() + i, sc.Pos0() + i + n))
  }

  /** Sending the next chunk keeps the wire invariant: no worker check fails. */
  lemma SendStep(sc: Scene, w: Worker, future: Served, chunks: seq<Chunk>, head: nat, i: nat, n: nat, f: Frame)
    requires sc.Ready() && ServedBy(sc.su, w) && sc.Wired(future, chunks, head, i)
    requires 0 < n && i + n <= |sc.tokens| && n <= sc.su.peer.prefillCap
    requires sc.mode.Verify? ==> n == 1
    requires sc.su.FrameBytes(n) <= MAX_FRAME
    requires InVocab(sc.su.model, sc.tokens[i..i + n])
    requires f == SpanFrame(sc, i, n)
    ensures sc.Wired(w.Extend(future, f), chunks + [Chunk(sc.Pos0() + i + n, n, i)], head, i + n)
  {
    hide Worker.Serve, Annotate, PrefixRows, FinalRow, FinalRows, InVocab, Owed, ServedBy, Setup.FrameBytes, SpanFrame;
    hide Scene.SessionAt, Setup.Valid;
    SendServe(sc, w, future.sessions, i, n, f);
    ContiguousSnoc(chunks, sc.Pos0(), i, n);
    var cs := chunks + [Chunk(sc.Pos0() + i + n, n, i)];
    var owed := Owed(sc.su.model, sc.id, sc.All(), cs[|chunks|], sc.su.info.mtp, sc.Final());
    var rs := w.Extend(future, f).replies;
    assert rs == future.replies + [owed];
    forall k | 0 <= k < |cs| - head
      ensures rs[k] == Owed(sc.su.model, sc.id, sc.All(), cs[head + k], sc.su.info.mtp, sc.Final())
    {
      if k < |chunks| - head { assert cs[head + k] == chunks[head + k]; }
    }
  }

  /** The next reply is the oldest chunk's; taking it keeps the invariant. */
  lemma ReceiveStep(sc: Scene, future: Served, chunks: seq<Chunk>, head: nat, i: nat)
    requires sc.Ready() && sc.Wired(future, chunks, head, i) && head < |chunks|
    ensures future.replies != []
    ensures future.replies[0] == Owed(sc.su.model, sc.id, sc.All(), chunks[head], sc.su.info.mtp, sc.Final())
    ensures sc.Wired(future.(replies := future.replies[1..]), chunks, head + 1, i)
    ensures Received(chunks, head + 1, i) == chunks[head].index + chunks[head].count <= i
    ensures Received(chunks, head, i) == chunks[head].index
  {
    ChunkIndexBelow(chunks, sc.Pos0(), i, head);
    var rest := future.replies[1..];
    assert forall k :: 0 <= k < |rest| ==> rest[k] == future.replies[k + 1];
  }

  predicate IsResult(f: Frame, id: int, pos: int, words: nat) {
    f.kind == KIND_RESULT && |f.words| == 2 + words && f.words[0] == id && f.words[1] == pos
  }

  /** The rows a reply carries, if it is the expected one. */
  method ResultRows(link: Link, su: Setup, id: int, pos: nat, n: nat) returns (ok: bool, rows: seq<Row>)
    modifies link
    ensures link.Future().fault == old(link.Future().fault)
    ensures ok ==> old(link.Future()).replies != []
    ensures ok ==> link.Future() == old(link.Future()).(replies := old(link.Future()).replies[1..])
    ensures ok ==> var f := old(link.Future()).replies[0];
                   f.kind == KIND_RESULT && |f.words| >= 2 && f.words[0] == id && f.words[1] == pos
    ensures ok ==> |rows| == n && var f := old(link.Future()).replies[0];
                   |f.words| == 2 + n * su.model.nEmbd && rows == GetRows(f.words[2..], su.model.nEmbd, n)
    ensures link.trouble >= old(link.trouble) && (ok ==> link.alive)
    ensures !ok && old(link.alive) && old(link.Future()).replies != [] && IsResult(old(link.Future()).replies[0], id, pos, n * su.model.nEmbd) ==>
      link.trouble > old(link.trouble)
  {
    rows := [];
    var got, f := link.Receive();
    if !got { return false, rows; }
    if f.kind != KIND_RESULT || f.Bytes() != 8 + n * su.model.nEmbd * 4 || f.words[0] != id || f.words[1] != pos {
      return false, rows;
    }
    assert n * su.model.nEmbd * 4 == 4 * (n * su.model.nEmbd);
    rows := GetRows(f.words[2..], su.model.nEmbd, n);
    return true, rows;
  }

  /** Rows read from an owed reply are the owed rows. */
  lemma OwedRows(m: Model, id: int, all: seq<Token>, c: Chunk, mtp: bool, final: bool, n: nat)
    requires m.WellFormed() && 0 < c.count <= c.end <= |all|
    requires n == |Rows(m, all, c, mtp, final)|
    ensures var f := Owed(m, id, all, c, mtp, final);
            |f.words| == 2 + n * m.nEmbd && GetRows(f.words[2..], m.nEmbd, n) == Rows(m, all, c, mtp, final)
            && IsResult(f, id, c.end, n * m.nEmbd)
  {
    var rows := Rows(m, all, c, mtp, final);
    forall i | 0 <= i < |rows|
      ensures |rows[i]| == m.nEmbd
    {
      if mtp { assert rows[i] == FinalRow(m, all[..c.end - c.count + i + 1]); }
    }
    RowsRoundTrip(rows, m.nEmbd);
    var f := Owed(m, id, all, c, mtp, final);
    assert f.words[2..] == PutRows(Rows(m, all, c, mtp, final));
  }

  /** Rows waiting to be sent are still in the host buffer. */
  ghost predicate Unsent(sc: Scene, hidden: seq<Row>, localStart: nat, i: nat, localEnd: nat) {
    && localStart <= i <= localEnd <= |sc.tokens| && localEnd - localStart <= |hidden|
    && forall j :: i - localStart <= j < localEnd - localStart ==>
         hidden[j] == sc.su.model.prefix(sc.All()[..sc.Pos0() + localStart + j + 1])
  }

  /** The collecting buffer of Verify and Prepared spans. */
  ghost predicate Collected(sc: Scene, out: seq<Row>, r: nat) {
    && r <= |sc.tokens|
    && (sc.su.info.mtp && !sc.mode.Plain? ==>
          r <= |out| && forall j :: 0 <= j < r ==> out[j] == sc.RowAt(j))
    && (!sc.su.info.mtp && sc.mode.Prepared? && sc.mode.final && r == |sc.tokens| ==>
          |out| > 0 && out[0] == FinalRow(sc.su.model, sc.All()))
  }

  /** The verdicts on the first `k` tokens: each has its token picked, and only
      the last may have ended the verification. */
  ghost predicate Judged(sc: Scene, tops: seq<int>, k: nat, r: nat, stopped: bool, projected: Row) {
    sc.mode.Verify? ==>
      && k <= r <= |sc.tokens| <= |tops| && (stopped ==> k > 0) && (!stopped ==> k == r)
      && (forall j :: 0 <= j < k ==> tops[j] == sc.TopAt(j))
      && (forall j :: 0 <= j < k && (stopped ==> j < k - 1) ==> sc.tokens[j] != sc.mode.eos)
      && (forall j, l :: 0 <= j < k && (stopped ==> j < k - 1) && l == j + 1 && l < |sc.tokens| ==> tops[j] == sc.tokens[l])
      && (stopped ==> sc.tokens[k - 1] == sc.mode.eos || (k < |sc.tokens| && tops[k - 1] != sc.tokens[k]))
      && (k > 0 ==> projected == sc.RowAt(k - 1))
  }

  ghost function CaughtRows(sc: Scene, r: nat): (cs: seq<Caught>)
    requires r <= |sc.tokens|
  {
    seq(r, j requires 0 <= j < r => Caught(sc.Pos0() + j, sc.tokens[j], sc.RowAt(j)))
  }

  /** The prefix stage has consumed the span up to the end of its last batch,
      and the MTP head the tokens whose rows are back. */
  ghost predicate Local(sc: Scene, hist: seq<Token>, caught: seq<Caught>, caught0: seq<Caught>, r: nat, localEnd: nat) {
    && r <= localEnd <= |sc.tokens|
    && (sc.base != [] || localEnd > 0 ==> hist == sc.All()[..sc.Pos0() + localEnd])
    && (sc.base != [] || localEnd > 0 ==>
          caught == (if sc.base == [] then [] else caught0)
                    + (if sc.mode.Plain? && sc.su.info.mtp then CaughtRows(sc, r) else []))
  }

  ghost function CaughtEntries(sc: Scene, r: nat, n: nat, rows: seq<Row>): (cs: seq<Caught>)
    requires r + n <= |sc.tokens| && |rows| == n
  {
    NewlyCaught(sc.tokens[r..r + n], sc.Pos0() + r, rows)
  }

  lemma CaughtSnoc(sc: Scene, r: nat, n: nat, rows: seq<Row>)
    requires r + n <= |sc.tokens| && rows == FinalRows(sc.su.model, sc.All(), sc.Pos0() + r, sc.Pos0() + r + n)
    ensures CaughtRows(sc, r + n) == CaughtRows(sc, r) + CaughtEntries(sc, r, n, rows)
  {
    forall j | 0 <= j < n
      ensures rows[j] == sc.RowAt(r + j)
    {
      assert sc.All()[..sc.Pos0() + r + j + 1] == sc.All()[..sc.Pos0() + (r + j) + 1];
    }
  }

  /** Rows just evaluated and stored at the front of the host buffer are the
      rows still to be sent. */
  lemma BatchStored(sc: Scene, rows: seq<Row>, hidden: seq<Row>, i: nat, n: nat)
    requires i + n <= |sc.tokens| && |rows| == n <= |hidden| && hidden[..n] == rows
    requires rows == PrefixRows(sc.su.model, sc.All()[..sc.Pos0() + i + n], sc.Pos0() + i, sc.Pos0() + i + n)
    ensures Unsent(sc, hidden, i, i, i + n)
  {
    forall j | 0 <= j < n
      ensures hidden[j] == sc.su.model.prefix(sc.All()[..sc.Pos0() + i + j + 1])
    {
      assert hidden[j] == rows[j];
      assert sc.All()[..sc.Pos0() + i + n][..sc.Pos0() + i + j + 1] == sc.All()[..sc.Pos0() + i + j + 1];
    }
  }

  lemma VocabPart(m: Model, ts: seq<Token>, lo: nat, mid: nat, hi: nat)
    requires lo <= mid <= hi <= |ts| && InVocab(m, ts[..hi])
    ensures InVocab(m, ts[lo..mid])
  {
    forall j | 0 <= j < mid - lo
      ensures 0 <= ts[lo..mid][j] < m.nVocab
    {
      assert ts[lo..mid][j] == ts[..hi][lo + j];
    }
  }

  /** Tokens all in the vocabulary, and from two parts. */
  lemma VocabParts(m: Model, ts: seq<Token>, mid: nat, hi: nat)
    requires mid <= hi <= |ts|
    ensures InVocab(m, ts) ==> InVocab(m, ts[mid..hi])
    ensures InVocab(m, ts[..mid]) && InVocab(m, ts[mid..hi]) ==> InVocab(m, ts[..hi])
  {
    if InVocab(m, ts[..mid]) && InVocab(m, ts[mid..hi]) {
      forall j | 0 <= j < hi ensures 0 <= ts[..hi][j] < m.nVocab {
        if j < mid { assert ts[..hi][j] == ts[..mid][j]; } else { assert ts[..hi][j] == ts[mid..hi][j - mid]; }
      }
    }
  }

  /** The slice of the host buffer that a chunk sends. */
  lemma ChunkRows(sc: Scene, hidden: seq<Row>, localStart: nat, i: nat, localEnd: nat, n: nat)
    requires Unsent(sc, hidden, localStart, i, localEnd) && i + n <= localEnd
    ensures hidden[i - localStart..i - localStart + n]
            == PrefixRows(sc.su.model, sc.All(), sc.Pos0() + i, sc.Pos0() + i + n)
  {
    var rows := PrefixRows(sc.su.model, sc.All(), sc.Pos0() + i, sc.Pos0() + i + n);
    forall j | 0 <= j < n
      ensures hidden[i - localStart..][j] == rows[j]
    {
      assert sc.Pos0() + localStart + (i - localStart + j) + 1 == sc.Pos0() + i + j + 1;
    }
  }

  /** What a finished span has done to both stages. */
  ghost predicate Done(sc: Scene, future: Served, sent: nat)
    requires sc.Ready()
  {
    && 0 < sent <= |sc.tokens|
    && !future.fault && future.replies == []
    && future.sessions == sc.start.sessions[sc.id := sc.SessionAt(sent)]
  }

  /** Evaluate the next local batch into the host buffer. */
  method LoadBatch(st: Stage, sc: Scene, hidden: array<Row>, i: nat, batch: nat,
                   ghost caught0: seq<Caught>, ghost r: nat)
    returns (ok: bool)
    requires sc.Ready() && st.model == sc.su.model
    requires 0 < batch <= hidden.Length && i + batch <= |sc.tokens|
    requires Local(sc, st.hist, st.caught, caught0, r, i)
    requires sc.base != [] || i > 0 ==> st.spec == sc.mode.Verify?
    modifies st, hidden
    ensures ok ==> Local(sc, st.hist, st.caught, caught0, r, i + batch)
    ensures ok ==> Unsent(sc, hidden[..], i, i, i + batch)
    ensures ok ==> InVocab(sc.su.model, sc.tokens[i..i + batch]) && st.spec == sc.mode.Verify?
    ensures !old(st.spec) ==> !st.spec
    ensures st.specPos == old(st.specPos) && st.projected == old(st.projected) && st.trouble >= old(st.trouble)
    ensures sc.base != [] ==> st.resets == old(st.resets)
    ensures !ok ==>
      || st.trouble > old(st.trouble)
      || |sc.base| + i + batch > st.ctx || !InVocab(sc.su.model, sc.tokens[i..i + batch])
      || (old(st.spec) && (batch != 1 || |sc.base| + i >= st.specPos + VERIFY_MAX))
  {
    var pos0 := |sc.base|;
    if pos0 + i == 0 { st.Reset(); }
    ghost var hist := st.hist;
    var rows;
    ok, rows := st.Eval(sc.tokens[i..i + batch], pos0 + i);
    if !ok { return; }
    forall j | 0 <= j < batch { hidden[j] := rows[j]; }
    assert hist == sc.All()[..pos0 + i];
    assert st.hist == sc.All()[..pos0 + i + batch];
    BatchStored(sc, rows, hidden[..], i, batch);
  }

  lemma WiredClean(sc: Scene, future: Served, chunks: seq<Chunk>, head: nat, i: nat)
    requires sc.Ready() && sc.Wired(future, chunks, head, i)
    ensures !future.fault && head <= |chunks|
  {
  }

  /** Send the next chunk and take a ring slot for it. */
  method SendChunk(link: Link, sc: Scene, pending: array<Chunk>, rows: seq<Row>,
                   ghost chunks: seq<Chunk>, ghost head: nat, tail: nat, i: nat, n: nat, last: bool)
    returns (ok: bool)
    requires sc.Ready() && ServedBy(sc.su, link.worker) && sc.Wired(link.Future(), chunks, head, i)
    requires 0 < n && i + n <= |sc.tokens| && n <= sc.su.peer.prefillCap
    requires sc.mode.Verify? ==> n == 1
    requires sc.su.FrameBytes(n) <= MAX_FRAME
    requires InVocab(sc.su.model, sc.tokens[i..i + n])
    requires rows == PrefixRows(sc.su.model, sc.All(), sc.Pos0() + i, sc.Pos0() + i + n)
    requires last == (i + n == |sc.tokens| && sc.Final())
    requires pending.Length == 64 && Ring(pending[..], chunks, head, tail) && tail - head < 64
    modifies link, pending
    ensures !link.Future().fault
    ensures ok ==> sc.Wired(link.Future(), chunks + [Chunk(sc.Pos0() + i + n, n, i)], head, i + n)
    ensures ok ==> Ring(pending[..], chunks + [Chunk(sc.Pos0() + i + n, n, i)], head, tail + 1)
    ensures link.trouble >= old(link.trouble) && (ok ==> link.alive)
    ensures !ok && old(link.alive) ==> link.trouble > old(link.trouble)
  {
    hide Link.Future, PrefixRows, FinalRow, Annotate, Owed, InVocab, Rows, ServedBy, Scene.Wired, Scene.Ready, Ring, Setup.FrameBytes, Worker.Extend;
    var pos0 := |sc.base|;
    var frame := WorkFrame(sc.id, pos0 + i, SpanFlags(sc.su, sc.mode, pos0, i, last), sc.tokens[i..i + n], rows);
    SendStep(sc, link.worker, link.Future(), chunks, head, i, n, frame);
    WiredClean(sc, link.Future(), chunks, head, i);
    WiredClean(sc, link.worker.Extend(link.Future(), frame), chunks + [Chunk(sc.Pos0() + i + n, n, i)], head, i + n);
    ok := link.Send(frame);
    if !ok { return; }
    var c := Chunk(pos0 + i + n, n, i);
    RingPush(pending[..], chunks, head, tail, c);
    pending[tail % 64] := c;
  }

  /** Take the oldest chunk off the ring and the reply owed for it. */
  method TakeReply(link: Link, sc: Scene, pending: array<Chunk>, ghost chunks: seq<Chunk>, head: nat, ghost i: nat, count: nat)
    returns (ok: bool, c: Chunk, last: bool, rows: seq<Row>)
    requires sc.Ready() && ServedBy(sc.su, link.worker) && sc.Wired(link.Future(), chunks, head, i)
    requires pending.Length == 64 && Ring(pending[..], chunks, head, |chunks|) && head < |chunks|
    requires !sc.mode.Verify? ==> count == |sc.tokens|
    modifies link
    ensures !link.Future().fault
    ensures c == chunks[head] && last == (c.end == sc.Pos0() + count && sc.Final())
    ensures ok ==> sc.Wired(link.Future(), chunks, head + 1, i)
    ensures ok ==> rows == Rows(sc.su.model, sc.All(), c, sc.su.info.mtp, sc.Final())
    ensures Received(chunks, head, i) == c.index && Received(chunks, head + 1, i) == c.index + c.count <= i
    ensures link.trouble >= old(link.trouble) && (ok ==> link.alive)
    ensures !ok && old(link.alive) ==> link.trouble > old(link.trouble)
  {
    c := pending[head % 64];
    last := c.end == |sc.base| + count && (sc.mode.Prepared? ==> sc.mode.final);
    var returned := if sc.su.info.mtp then c.count else if last then 1 else 0;
    ReceiveStep(sc, link.Future(), chunks, head, i);
    OwedRows(sc.su.model, sc.id, sc.All(), c, sc.su.info.mtp, sc.Final(), returned);
    ok, rows := ResultRows(link, sc.su, sc.id, c.end, returned);
  }

  lemma LastOwedRow(m: Model, all: seq<Token>, c: Chunk, mtp: bool)
    requires 0 < c.count <= c.end == |all|
    ensures var rows := Rows(m, all, c, mtp, true); rows != [] && rows[|rows| - 1] == FinalRow(m, all)
  {
    assert all[..|all|] == all;
    if mtp { assert FinalRows(m, all, c.end - c.count, c.end)[c.count - 1] == FinalRow(m, all[..c.end]); }
  }

  /** A Plain span feeds the MTP head every row that comes back. */
  method FeedMtp(st: Stage, sc: Scene, c: Chunk, rows: seq<Row>, ghost caught0: seq<Caught>, ghost localEnd: nat)
    returns (ok: bool)
    requires sc.Ready() && sc.mode.Plain? && sc.su.info.mtp && 0 < c.count && c.index + c.count <= localEnd
    requires c.end == sc.Pos0() + c.index + c.count <= |sc.All()|
    requires rows == FinalRows(sc.su.model, sc.All(), c.end - c.count, c.end)
    requires Local(sc, st.hist, st.caught, caught0, c.index, localEnd)
    modifies st`caught, st`trouble
    ensures ok ==> Local(sc, st.hist, st.caught, caught0, c.index + c.count, localEnd)
    ensures st.trouble >= old(st.trouble) && (!ok && c.count <= st.cap ==> st.trouble > old(st.trouble))
  {
    ghost var was, before := if sc.base == [] then [] else caught0, st.caught;
    assert before == was + CaughtRows(sc, c.index);
    ok := st.Catchup(sc.tokens[c.index..c.index + c.count], |sc.base| + c.index, rows);
    if !ok { return; }
    CaughtSnoc(sc, c.index, c.count, rows);
    assert st.caught == was + CaughtRows(sc, c.index + c.count) by {
      assert st.caught == before + CaughtEntries(sc, c.index, c.count, rows);
    }
  }

  /** A Plain span projects its last row and feeds the MTP head. */
  method AbsorbPlain(st: Stage, sc: Scene, c: Chunk, last: bool, rows: seq<Row>, ghost caught0: seq<Caught>, ghost localEnd: nat)
    returns (ok: bool, logits: Row)
    requires sc.Ready() && sc.mode.Plain? && 0 < c.count && c.index + c.count <= localEnd
    requires c.end == sc.Pos0() + c.index + c.count <= |sc.All()| && last == (c.end == |sc.All()|)
    requires rows == Rows(sc.su.model, sc.All(), c, sc.su.info.mtp, true)
    requires Local(sc, st.hist, st.caught, caught0, c.index, localEnd)
    modifies st`caught, st`projected, st`trouble
    ensures ok ==> Local(sc, st.hist, st.caught, caught0, c.index + c.count, localEnd)
    ensures st.trouble >= old(st.trouble) && (!ok && c.count <= st.cap ==> st.trouble > old(st.trouble))
    ensures ok && last ==> logits == FinalRow(sc.su.model, sc.All()) == st.projected
  {
    ok, logits := true, [];
    if last {
      LastOwedRow(sc.su.model, sc.All(), c, sc.su.info.mtp);
      logits := rows[|rows| - 1];
      ok := st.Project(logits);
      if !ok { return; }
    }
    if sc.su.info.mtp { ok := FeedMtp(st, sc, c, rows, caught0, localEnd); }
  }

  /** A Verify span keeps the row, picks a token after it unless an earlier one
      already ended the verification, and ends it at an eos or a mismatch. */
  method AbsorbVerify(st: Stage, sc: Scene, c: Chunk, rows: seq<Row>, target: array<Row>, tops: array<Token>,
                      stopped: bool, count: nat, ghost k: nat)
    returns (ok: bool, stop: bool)
    requires sc.Ready() && sc.mode.Verify? && c.count == 1 && c.index < |sc.tokens|
    requires c.end == sc.Pos0() + c.index + 1
    requires rows == Rows(sc.su.model, sc.All(), c, sc.su.info.mtp, true)
    requires target.Length >= |sc.tokens| && tops.Length >= |sc.tokens|
    requires Collected(sc, target[..], c.index)
    requires Judged(sc, tops[..], k, c.index, stopped, st.projected) && (!stopped ==> count == |sc.tokens|)
    modifies st`projected, st`trouble, target, tops
    ensures st.trouble >= old(st.trouble) && (!ok ==> st.trouble > old(st.trouble))
    ensures ok ==> Collected(sc, target[..], c.index + 1) && (stopped ==> stop)
    ensures ok ==> Judged(sc, tops[..], if stopped then k else c.index + 1, c.index + 1, stop, st.projected)
  {
    ok, stop := true, stopped;
    assert rows[0] == sc.RowAt(c.index);
    target[c.index] := rows[0];
    if !stopped {
      ok := st.Project(rows[0]);
      if !ok { return; }
      var top := sc.su.model.top(rows[0], sc.mode.excluded);
      tops[c.index] := top;
      stop := sc.tokens[c.index] == sc.mode.eos || (c.index + 1 < count && top != sc.tokens[c.index + 1]);
    }
  }

  /** A Prepared span only moves the rows to the caller's buffer. */
  method AbsorbPrepared(sc: Scene, c: Chunk, rows: seq<Row>, target: array<Row>)
    requires sc.Ready() && sc.mode.Prepared? && 0 < c.count
    requires c.end == sc.Pos0() + c.index + c.count <= |sc.All()|
    requires rows == Rows(sc.su.model, sc.All(), c, sc.su.info.mtp, sc.Final())
    requires target.Length >= if sc.su.info.mtp then |sc.tokens| else 1
    requires Collected(sc, target[..], c.index)
    modifies target
    ensures Collected(sc, target[..], c.index + c.count)
  {
    var at := if sc.su.info.mtp then c.index else 0;
    forall j | 0 <= j < |rows| { target[at + j] := rows[j]; }
    if sc.su.info.mtp {
      forall j | 0 <= j < c.index + c.count
        ensures target[..][j] == sc.RowAt(j)
      {
        if j >= c.index {
          assert target[..][j] == rows[j - c.index];
          assert c.end - c.count + (j - c.index) + 1 == sc.Pos0() + j + 1;
        }
      }
    } else {
      assert sc.All()[..|sc.All()|] == sc.All();
    }
  }

  /** Nothing about the span itself stands in its way. */
  ghost predicate Feasible(sc: Scene, ctx: nat, cap: nat, specPos: nat) {
    sc.mode.Prepared? ||
    (&& sc.Pos0() + |sc.tokens| <= ctx && InVocab(sc.su.model, sc.tokens)
     && (sc.mode.Plain? ==> sc.su.info.prefillCap <= cap) && (sc.mode.Verify? ==> specPos == sc.Pos0()))
  }

  /** The state of one span's loop.  `input` holds the residual rows of a
      Prepared span; `target` collects the rows of Verify and Prepared spans. */
  class SpanLoop {
    const link: Link
    const st: Stage
    const sc: Scene
    const cap: nat
    const window: nat
    const hidden: array<Row>
    const target: array<Row>
    const tops: array<Token>
    const pending: array<Chunk>
    var count: nat
    var head: nat
    var tail: nat
    var i: nat
    var localStart: nat
    var localEnd: nat
    var stopped: bool
    var logits: Row
    ghost var chunks: seq<Chunk>
    ghost var k: nat
    ghost var caught0: seq<Caught>

    ghost predicate Fixed() {
      && sc.Ready() && ServedBy(sc.su, link.worker) && st.model == sc.su.model
      && 1 <= cap <= |sc.tokens| && cap <= sc.su.peer.prefillCap && (sc.mode.Verify? ==> cap == 1)
      && (sc.mode.Plain? ==> cap <= sc.su.info.prefillCap)
      && sc.su.FrameBytes(cap) <= MAX_FRAME
      && 0 < window <= 64
      && hidden != target && pending.Length == 64
      && (!sc.mode.Prepared? ==> hidden.Length == cap)
      && (!sc.mode.Plain? ==> target.Length >= if sc.su.info.mtp then |sc.tokens| else 1)
      && (sc.mode.Verify? ==> tops.Length >= |sc.tokens|)
    }

    /** The window is respected, the ring holds the live chunks, and the worker
        owes exactly their rows. */
    ghost predicate OnWire()
      requires Fixed()
      reads this, link, pending
    {
      && i <= count <= |sc.tokens| && (count < |sc.tokens| ==> stopped)
      && (stopped ==> sc.mode.Verify? && count == i)
      && tail == |chunks| && head <= tail <= head + window
      && Ring(pending[..], chunks, head, tail)
      && sc.Wired(link.Future(), chunks, head, i)
      && Small(chunks, cap)
    }

    /** Rows evaluated but not sent are intact in the host buffer; without a
        separate buffer none is ever left over. */
    ghost predicate InHand()
      reads this, hidden
    {
      && Unsent(sc, hidden[..], localStart, i, localEnd)
      && InVocab(sc.su.model, sc.tokens[..localEnd])
      && (sc.mode.Prepared? ==> localEnd == |sc.tokens|)
      && (!sc.mode.Prepared? ==> i == localEnd)
    }

    ghost predicate Prefixed()
      reads this, st`hist, st`caught, st`spec, st`projected
    {
      !sc.mode.Prepared? ==>
        && Local(sc, st.hist, st.caught, caught0, Received(chunks, head, i), localEnd)
        && st.spec == sc.mode.Verify?
    }

    ghost predicate Gathered()
      reads this, target, tops, st`hist, st`caught, st`spec, st`projected
    {
      && Collected(sc, target[..], Received(chunks, head, i))
      && Judged(sc, tops[..], k, Received(chunks, head, i), stopped, st.projected)
      && (sc.mode.Plain? && i == |sc.tokens| && head == |chunks| ==>
            logits == FinalRow(sc.su.model, sc.All()) == st.projected)
    }

    ghost predicate Valid()
      reads this, link, pending, hidden, target, tops, st`hist, st`caught, st`spec, st`projected
    {
      Fixed() && OnWire() && InHand() && Prefixed() && Gathered()
    }

    constructor (link: Link, st: Stage, sc: Scene, input: array<Row>, target: array<Row>, tops: array<Token>)
      requires sc.Ready() && ServedBy(sc.su, link.worker) && sc.start == link.Future()
      requires st.model == sc.su.model
      requires !sc.mode.Prepared? ==> (sc.base != [] ==> st.hist == sc.base) && st.spec == sc.mode.Verify?
      requires target != input
      requires sc.mode.Prepared? ==> InVocab(sc.su.model, sc.tokens) && Unsent(sc, input[..], 0, 0, |sc.tokens|)
      requires !sc.mode.Plain? ==> target.Length >= if sc.su.info.mtp then |sc.tokens| else 1
      requires sc.mode.Verify? ==> tops.Length >= |sc.tokens|
      ensures Valid() && fresh(pending) && caught0 == st.caught
      ensures this.link == link && this.st == st && this.sc == sc && this.target == target && this.tops == tops
      ensures if sc.mode.Prepared? then hidden == input else fresh(hidden)
    {
      this.link, this.st, this.sc, this.target, this.tops := link, st, sc, target, tops;
      count := |sc.tokens|;
      var c := sc.su.Cap(sc.mode.Verify?, |sc.tokens|);
      sc.su.CapFits(sc.mode.Verify?, |sc.tokens|);
      cap, window := c, sc.su.Window();
      if sc.mode.Prepared? { hidden := input; } else { hidden := new Row[c]; }
      pending := new Chunk[64];
      head, tail, i, localStart := 0, 0, 0, 0;
      localEnd := if sc.mode.Prepared? then |sc.tokens| else 0;
      stopped, logits := false, [];
      chunks, k, caught0 := [], 0, st.caught;
      new;
      assert sc.start.sessions[sc.id := sc.SessionAt(0)] == sc.start.sessions;
      assert sc.All()[..sc.Pos0() + 0] == sc.base;
      assert sc.tokens[..] == sc.tokens;
      assert CaughtRows(sc, 0) == [];
    }

    /** Everything but the host buffer, which holds rows [i, localEnd). */
    ghost predicate Loaded()
      reads this, link, pending, hidden, target, tops, st`hist, st`caught, st`spec, st`projected
    {
      && Fixed() && OnWire() && Prefixed() && Gathered()
      && Unsent(sc, hidden[..], localStart, i, localEnd)
      && InVocab(sc.su.model, sc.tokens[..localEnd])
      && (sc.mode.Prepared? ==> localEnd == |sc.tokens|)
      && (!sc.mode.Prepared? ==> localStart == i && localEnd <= i + cap)
    }

    /** Before a send either rows are waiting or the host buffer is free. */
    lemma Waiting()
      requires Valid() && i < count
      ensures !link.Future().fault
      ensures i == localEnd ==> !sc.mode.Prepared?
      ensures i != localEnd ==> Loaded() && i < localEnd
    {
      hide Link.Future, Judged, Collected, Ring, ServedBy, Setup.FrameBytes, FinalRow, Local, InVocab;
    }

    /** A transaction has room for every token of the span. */
    lemma SpecFits()
      requires Valid() && !sc.mode.Prepared? && i < count
      ensures st.spec ==> cap == 1 && (st.specPos == sc.Pos0() ==> sc.Pos0() + i < st.specPos + VERIFY_MAX)
    {
      hide Link.Future, Judged, Collected, Ring, ServedBy, Setup.FrameBytes, FinalRow, Scene.Wired, Local, InVocab;
    }

    /** Evaluate the next batch into the free host buffer. */
    method Refill() returns (ok: bool)
      requires Valid() && i < count && i == localEnd && !sc.mode.Prepared?
      modifies this`localStart, this`localEnd, st, hidden
      ensures ok ==> Loaded() && i < localEnd
      ensures st.specPos == old(st.specPos) && (!old(st.spec) ==> !st.spec) && (sc.base != [] ==> st.resets == old(st.resets))
      ensures st.trouble >= old(st.trouble)
      ensures !ok && Feasible(sc, st.ctx, st.cap, st.specPos) ==> st.trouble > old(st.trouble)
    {
      hide Link.Future, Judged, Collected, Ring, ServedBy, Setup.FrameBytes, FinalRow, Scene.Wired, Local, InVocab;
      var batch := if count - i > cap then cap else count - i;
      VocabParts(sc.su.model, sc.tokens, i, i + batch);
      SpecFits();
      ok := LoadBatch(st, sc, hidden, i, batch, caught0, Received(chunks, head, i));
      if !ok { return; }
      localStart, localEnd := i, i + batch;
      assert target[..] == old(target[..]) && tops[..] == old(tops[..]) && pending[..] == old(pending[..]);
    }

    /** Evaluate the next batch into the host buffer if no row is waiting. */
    method LoadNext() returns (ok: bool)
      requires Valid() && i < count
      modifies this`localStart, this`localEnd, if sc.mode.Prepared? then {} else {st, hidden}
      ensures !link.Future().fault
      ensures ok ==> Loaded() && i < localEnd
      ensures st.specPos == old(st.specPos) && (!old(st.spec) ==> !st.spec) && (sc.base != [] ==> st.resets == old(st.resets))
      ensures st.trouble >= old(st.trouble)
      ensures !ok && Feasible(sc, st.ctx, st.cap, st.specPos) ==> st.trouble > old(st.trouble)
    {
      hide *;
      Waiting();
      ok := true;
      if i == localEnd { ok := Refill(); }
    }

    /** What sending the next `n` rows needs. */
    lemma Sendable(n: nat)
      requires Loaded() && 0 < n <= cap && i + n <= localEnd
      ensures sc.su.FrameBytes(n) <= MAX_FRAME && InVocab(sc.su.model, sc.tokens[i..i + n])
      ensures localStart <= i && localEnd - localStart <= hidden.Length && localEnd <= |sc.tokens|
      ensures hidden[i - localStart..i - localStart + n]
           == PrefixRows(sc.su.model, sc.All(), sc.Pos0() + i, sc.Pos0() + i + n)
    {
      hide Link.Future, Judged, Collected, Local, PrefixRows, FinalRow, Setup.FrameBytes, InVocab, Scene.Wired, Ring, ServedBy;
      ChunkRows(sc, hidden[..], localStart, i, localEnd, n);
      sc.su.SmallerFits(n, cap);
      VocabPart(sc.su.model, sc.tokens, i, i + n, localEnd);
    }

    /** What is left to send afterwards, and that nothing more has come back. */
    lemma LeftOver(n: nat)
      requires Loaded() && i + n <= localEnd
      ensures Unsent(sc, hidden[..], localStart, i + n, localEnd)
      ensures head <= |chunks| ==>
        Received(chunks + [Chunk(sc.Pos0() + i + n, n, i)], head, i + n) == Received(chunks, head, i)
    {
      hide Link.Future, Judged, Collected, Local, FinalRow, Setup.FrameBytes, InVocab, Scene.Wired, Ring, ServedBy;
    }

    /** Send the next chunk of the host buffer. */
    method SendNext() returns (ok: bool)
      requires Loaded() && i < count && i < localEnd && tail - head < window
      modifies this`tail, this`i, this`chunks, link, pending
      ensures !link.Future().fault
      ensures ok ==> Valid() && i > old(i) && head == old(head) && tail == old(tail) + 1
      ensures link.trouble >= old(link.trouble) && (ok ==> link.alive)
      ensures !ok && old(link.alive) ==> link.trouble > old(link.trouble)
    {
      hide Link.Future, Judged, Collected, Local, Unsent, Received, PrefixRows, FinalRow, Setup.FrameBytes, InVocab, Scene.Wired, Ring, ServedBy, Scene.Ready, Scene.All, Scene.Pos0, Small;
      var n := if localEnd - i > cap then cap else localEnd - i;
      var last := i + n == count && (sc.mode.Prepared? ==> sc.mode.final);
      Sendable(n);
      LeftOver(n);
      SmallSnoc(chunks, Chunk(sc.Pos0() + i + n, n, i), cap);
      ok := SendChunk(link, sc, pending, hidden[i - localStart..i - localStart + n], chunks, head, tail, i, n, last);
      if !ok { return; }
      chunks := chunks + [Chunk(sc.Pos0() + i + n, n, i)];
      tail, i := tail + 1, i + n;
    }

    /** The oldest chunk's reply is taken, and its rows not yet used. */
    ghost predicate Taken(c: Chunk, last: bool, rows: seq<Row>)
      reads this, link, pending, hidden, target, tops, st`hist, st`caught, st`spec, st`projected
    {
      && Fixed() && OnWire() && InHand()
      && 0 < c.count <= cap && c.index + c.count <= i && c.end == sc.Pos0() + c.index + c.count
      && (sc.mode.Verify? ==> c.count == 1)
      && Received(chunks, head, i) == c.index + c.count
      && last == (c.end == sc.Pos0() + count && sc.Final())
      && rows == Rows(sc.su.model, sc.All(), c, sc.su.info.mtp, sc.Final())
      && (!sc.mode.Prepared? ==>
            Local(sc, st.hist, st.caught, caught0, c.index, localEnd) && st.spec == sc.mode.Verify?)
      && Collected(sc, target[..], c.index)
      && Judged(sc, tops[..], k, c.index, stopped, st.projected)
    }

    method Take() returns (ok: bool, c: Chunk, last: bool, rows: seq<Row>)
      requires Valid() && head != tail
      modifies this`head, link
      ensures !link.Future().fault
      ensures head == old(head) + 1
      ensures ok ==> Taken(c, last, rows)
      ensures link.trouble >= old(link.trouble) && (ok ==> link.alive)
      ensures !ok && old(link.alive) ==> link.trouble > old(link.trouble)
    {
      hide Link.Future, FinalRow, InVocab, Unsent, Judged, Collected, Local, Owed, Rows;
      ok, c, last, rows := TakeReply(link, sc, pending, chunks, head, i, count);
      head := head + 1;
    }

    /** A Plain reply is read into the host buffer itself: it fits, and no row in
        it still has to be sent. */
    method Reuse(c: Chunk, last: bool, rows: seq<Row>)
      requires Taken(c, last, rows) && sc.mode.Plain?
      modifies hidden
      ensures |rows| <= hidden.Length && hidden[..|rows|] == rows
      ensures Taken(c, last, rows)
    {
      hide Link.Future, FinalRow, InVocab, Owed, Local, Ring, Scene.Wired, Collected, Judged, ServedBy;
      RowsFit(c);
      forall j | 0 <= j < |rows| { hidden[j] := rows[j]; }
      assert target[..] == old(target[..]) && tops[..] == old(tops[..]) && pending[..] == old(pending[..]);
    }

    lemma RowsFit(c: Chunk)
      requires 0 < c.count <= cap && c.count <= c.end <= |sc.All()|
      ensures |Rows(sc.su.model, sc.All(), c, sc.su.info.mtp, sc.Final())| <= cap
    {
    }

    method UsePlain(c: Chunk, last: bool, rows: seq<Row>) returns (ok: bool)
      requires Taken(c, last, rows) && sc.mode.Plain?
      modifies this`logits, st, hidden
      ensures link.Future() == old(link.Future())
      ensures ok ==> Valid()
      ensures st.specPos == old(st.specPos) && st.spec == old(st.spec) && st.resets == old(st.resets)
      ensures st.trouble >= old(st.trouble)
      ensures !ok && sc.su.info.prefillCap <= st.cap ==> st.trouble > old(st.trouble)
    {
      hide Link.Future, FinalRow, InVocab, Unsent, Owed, Rows, Local, Ring, Scene.Wired;
      Reuse(c, last, rows);
      ok, logits := AbsorbPlain(st, sc, c, last, hidden[..|rows|], caught0, localEnd);
    }

    method UseVerify(c: Chunk, last: bool, rows: seq<Row>) returns (ok: bool)
      requires Taken(c, last, rows) && sc.mode.Verify?
      modifies this`stopped, this`count, this`k, st, target, tops
      ensures link.Future() == old(link.Future())
      ensures ok ==> Valid()
      ensures st.specPos == old(st.specPos) && st.spec == old(st.spec) && st.resets == old(st.resets)
      ensures st.trouble >= old(st.trouble) && (!ok ==> st.trouble > old(st.trouble))
    {
      hide Link.Future, FinalRow, InVocab, Unsent, Owed, Rows, Judged, Collected, Ring, Scene.Wired;
      var stop;
      ok, stop := AbsorbVerify(st, sc, c, rows, target, tops, stopped, count, k);
      if ok && !stopped {
        k := c.index + 1;
        if stop { stopped, count := true, i; }
      }
    }

    method UsePrepared(c: Chunk, last: bool, rows: seq<Row>)
      requires Taken(c, last, rows) && sc.mode.Prepared?
      modifies target
      ensures link.Future() == old(link.Future())
      ensures Valid()
    {
      hide Link.Future, FinalRow, InVocab, Unsent, Owed, Rows, Collected, Local, Ring, Scene.Wired;
      AbsorbPrepared(sc, c, rows, target);
    }

    lemma Bounded()
      requires Valid()
      ensures head <= tail <= i <= |sc.tokens| && !link.Future().fault
      ensures tail - head <= window <= 64
    {
      hide Link.Future;
      if tail > 0 { ChunkIndexAtLeast(chunks, sc.Pos0(), i, tail - 1); }
    }

    /** A finished loop has sent and collected everything. */
    lemma Finished()
      requires Valid() && i >= count && head == tail
      ensures Done(sc, link.Future(), i)
      ensures !sc.mode.Verify? ==> i == |sc.tokens|
      ensures Collected(sc, target[..], i)
      ensures sc.mode.Plain? ==> logits == FinalRow(sc.su.model, sc.All()) == st.projected
      ensures !sc.mode.Prepared? ==> Local(sc, st.hist, st.caught, caught0, i, i) && st.spec == sc.mode.Verify?
      ensures Judged(sc, tops[..], k, i, stopped, st.projected) && (i < |sc.tokens| ==> stopped)
      ensures InVocab(sc.su.model, sc.tokens[..i])
    {
      hide Link.Future, FinalRow, Owed, InVocab, Unsent, Ring;
    }

    lemma Fits()
      ensures sc.mode.Plain? && Feasible(sc, st.ctx, st.cap, st.specPos) ==> sc.su.info.prefillCap <= st.cap
    {
    }

    /** Collect the oldest chunk in flight. */
    method ReceiveNext() returns (ok: bool)
      requires Valid() && head != tail
      modifies this`head, this`stopped, this`count, this`logits, this`k, link, target, tops
      modifies if sc.mode.Prepared? then {} else {st, hidden}
      ensures !link.Future().fault
      ensures ok ==> Valid() && head == old(head) + 1 && i == old(i)
      ensures st.specPos == old(st.specPos) && st.spec == old(st.spec) && st.resets == old(st.resets)
      ensures link.trouble >= old(link.trouble) && st.trouble >= old(st.trouble) && (ok ==> link.alive)
      ensures !ok && old(link.alive) && Feasible(sc, st.ctx, st.cap, st.specPos) ==>
        link.trouble > old(link.trouble) || st.trouble > old(st.trouble)
    {
      hide *;
      Fits();
      var c, last, rows;
      ok, c, last, rows := Take();
      if !ok { return; }
      match sc.mode {
        case Plain => ok := UsePlain(c, last, rows);
        case Verify(_, _) => ok := UseVerify(c, last, rows);
        case Prepared(_) => UsePrepared(c, last, rows);
      }
    }

    /** One iteration: send while the window has room, otherwise collect; with
        MTP rows owed, a reply is taken while the next frame is on its way. */
    method Iterate() returns (ok: bool)
      requires Valid() && (i < count || head != tail)
      modifies this, link, pending, target, tops
      modifies if sc.mode.Prepared? then {} else {st, hidden}
      ensures !link.Future().fault
      ensures ok ==> Valid() && i + head > old(i + head)
      ensures caught0 == old(caught0) && st.specPos == old(st.specPos) && (!old(st.spec) ==> !st.spec) && (sc.base != [] ==> st.resets == old(st.resets))
      ensures ok && old(i < count && tail - head < window) ==>
        i > old(i) && head == old(head) + (if sc.su.info.mtp && old(head != tail) then 1 else 0)
      ensures ok && !old(i < count && tail - head < window) ==> i == old(i) && head == old(head) + 1
      ensures link.trouble >= old(link.trouble) && st.trouble >= old(st.trouble) && (ok ==> link.alive)
      ensures !ok && old(link.alive) && Feasible(sc, st.ctx, st.cap, st.specPos) ==>
        link.trouble > old(link.trouble) || st.trouble > old(st.trouble)
    {
      hide Feasible, Link.Future, Owed, InVocab, Unsent, Collected, Local, Judged, Scene.Wired, Ring, SpanLoop.InHand, SpanLoop.Prefixed, SpanLoop.Gathered;
      var receive := true;
      if i < count && tail - head < window {
        ok := LoadNext();
        if !ok { return; }
        receive := sc.su.info.mtp && head != tail;
        ok := SendNext();
        if !ok { return; }
      }
      if receive { ok := ReceiveNext(); }
    }
  }

  /** No chunk is larger than the cap, so no reply is larger than the host buffer. */
  ghost predicate Small(chunks: seq<Chunk>, cap: nat) {
    forall j :: 0 <= j < |chunks| ==> chunks[j].count <= cap
  }

  lemma SmallSnoc(chunks: seq<Chunk>, c: Chunk, cap: nat)
    requires Small(chunks, cap) && c.count <= cap
    ensures Small(chunks + [c], cap)
  {
  }

  /** The pipelined span.  Whatever the window, the chunk sizes, the worker's
      pace and the moment a failure strikes: no worker check ever fails; and if
      the span succeeds, both stages have consumed exactly the tokens sent, once
      and in order, no reply is left over, and the rows delivered are the
      two-stage rows of their positions. */
  method SpanBody(link: Link, st: Stage, sc: Scene, input: array<Row>, target: array<Row>, tops: array<Token>)
    returns (ok: bool, sent: nat, logits: Row, ghost k: nat, stopped: bool)
    requires sc.Ready() && ServedBy(sc.su, link.worker) && sc.start == link.Future()
    requires st.model == sc.su.model
    requires !sc.mode.Prepared? ==> (sc.base != [] ==> st.hist == sc.base) && st.spec == sc.mode.Verify?
    requires target != input
    requires sc.mode.Prepared? ==> InVocab(sc.su.model, sc.tokens) && Unsent(sc, input[..], 0, 0, |sc.tokens|)
    requires !sc.mode.Plain? ==> target.Length >= if sc.su.info.mtp then |sc.tokens| else 1
    requires sc.mode.Verify? ==> tops.Length >= |sc.tokens|
    modifies link, target, tops, if sc.mode.Prepared? then {} else {st}
    ensures !link.Future().fault
    ensures ok ==> Done(sc, link.Future(), sent)
    ensures ok && !sc.mode.Verify? ==> sent == |sc.tokens|
    ensures ok ==> Collected(sc, target[..], sent)
    ensures ok && sc.mode.Plain? ==> logits == FinalRow(sc.su.model, sc.All()) == st.projected
    ensures ok && !sc.mode.Prepared? ==>
      Local(sc, st.hist, st.caught, old(st.caught), sent, sent) && st.spec == sc.mode.Verify?
    ensures !sc.mode.Prepared? ==> st.specPos == old(st.specPos) && (!old(st.spec) ==> !st.spec)
    ensures sc.base != [] ==> st.resets == old(st.resets)
    ensures ok ==> Judged(sc, tops[..], k, sent, stopped, st.projected) && (sent < |sc.tokens| ==> stopped)
    ensures ok ==> sent <= |sc.tokens| && InVocab(sc.su.model, sc.tokens[..sent])
    ensures link.trouble >= old(link.trouble) && st.trouble >= old(st.trouble) && (ok && old(link.alive) ==> link.alive)
    ensures !ok && old(link.alive) && Feasible(sc, st.ctx, st.cap, old(st.specPos)) ==>
      link.trouble > old(link.trouble) || st.trouble > old(st.trouble)
  {
    hide *;
    var loop := new SpanLoop(link, st, sc, input, target, tops);
    loop.Bounded();
    ok, sent, logits, k, stopped := true, 0, [], 0, false;
    while loop.i < loop.count || loop.head != loop.tail
      invariant ok && loop.Valid() && !link.Future().fault
      invariant loop.head <= loop.i <= |sc.tokens|
      invariant loop.hidden == input || fresh(loop.hidden)
      invariant sc.mode.Prepared? ==> loop.hidden == input
      invariant !sc.mode.Prepared? ==> fresh(loop.hidden)
      invariant loop.caught0 == old(st.caught) && st.specPos == old(st.specPos) && (!old(st.spec) ==> !st.spec) && (sc.base != [] ==> st.resets == old(st.resets))
      invariant link.trouble >= old(link.trouble) && st.trouble >= old(st.trouble)
      invariant old(link.alive) ==> link.alive
      decreases 2 * |sc.tokens| - loop.i - loop.head
    {
      if !sc.mode.Prepared? {
        var cancelled := st.Trouble();
        if cancelled { ok := false; break; }
      }
      ok := loop.Iterate();
      if !ok { break; }
      loop.Bounded();
    }
    if ok { loop.Finished(); }
    sent, logits, stopped, k := loop.i, loop.logits, loop.stopped, loop.k;
  }
}
