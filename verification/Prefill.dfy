/** The overlapped prefill: an I/O exchange moves one prepared batch through the
    worker while the prefix stage evaluates the next one into its other buffer. */
module Prefill {
  import opened Stages
  import opened Wire
  import opened Coordinator
  import opened Span

  /** The exchange of tokens [i, i+n) of a longer span, as a span of its own. */
  ghost function Part(sc: Scene, i: nat, n: nat, future: Served): Scene
    requires i + n <= |sc.tokens|
  {
    Scene(sc.su, sc.id, sc.base + sc.tokens[..i], sc.tokens[i..i + n], Prepared(i + n == |sc.tokens|), future)
  }

  /** The connection is idle and the worker has consumed the first `i` tokens. */
  ghost predicate HeldBy(sc: Scene, future: Served, i: nat)
    requires sc.Ready() && i <= |sc.tokens|
  {
    !future.fault && future.replies == [] && future.sessions == sc.start.sessions[sc.id := sc.SessionAt(i)]
  }

  lemma PartReady(sc: Scene, i: nat, n: nat, future: Served)
    requires sc.Ready() && sc.mode.Plain? && 0 < n && i + n <= |sc.tokens| && HeldBy(sc, future, i)
    ensures Part(sc, i, n, future).Ready()
    ensures Part(sc, i, n, future).All() == sc.All()[..sc.Pos0() + i + n]
    ensures Part(sc, i, n, future).Pos0() == sc.Pos0() + i
  {
    assert sc.base + sc.tokens[..i] == sc.All()[..sc.Pos0() + i];
    assert sc.All()[..sc.Pos0() + 0] == sc.base;
  }

  /** A finished part leaves the worker with the longer history. */
  lemma PartDone(sc: Scene, i: nat, n: nat, before: Served, after: Served)
    requires sc.Ready() && sc.mode.Plain? && 0 < n && i + n <= |sc.tokens| && HeldBy(sc, before, i)
    requires Part(sc, i, n, before).Ready() && Done(Part(sc, i, n, before), after, n)
    ensures HeldBy(sc, after, i + n)
  {
    hide Annotate, InVocab, Setup.Valid;
    PartReady(sc, i, n, before);
    var p := Part(sc, i, n, before);
    assert p.All()[..p.Pos0() + n] == sc.All()[..sc.Pos0() + i + n];
    assert p.SessionAt(n) == sc.SessionAt(i + n);
    assert before.sessions[sc.id := sc.SessionAt(i + n)] == sc.start.sessions[sc.id := sc.SessionAt(i + n)];
  }

  lemma PartRow(sc: Scene, i: nat, n: nat, future: Served, j: nat)
    requires sc.Ready() && sc.mode.Plain? && i + n <= |sc.tokens| && j < n && HeldBy(sc, future, i)
    ensures Part(sc, i, n, future).RowAt(j) == sc.RowAt(i + j)
  {
    PartReady(sc, i, n, future);
    assert sc.All()[..sc.Pos0() + i + n][..sc.Pos0() + i + j + 1] == sc.All()[..sc.Pos0() + (i + j) + 1];
  }

  lemma PartUnsent(sc: Scene, i: nat, n: nat, future: Served, hidden: seq<Row>)
    requires sc.Ready() && sc.mode.Plain? && 0 < n && i + n <= |sc.tokens| && HeldBy(sc, future, i)
    requires Unsent(sc, hidden, i, i, i + n)
    ensures Unsent(Part(sc, i, n, future), hidden, 0, 0, n)
  {
    PartReady(sc, i, n, future);
    var p := Part(sc, i, n, future);
    forall j | 0 <= j < n
      ensures hidden[j] == sc.su.model.prefix(p.All()[..p.Pos0() + 0 + j + 1])
    {
      assert p.All()[..p.Pos0() + 0 + j + 1] == sc.All()[..sc.Pos0() + i + j + 1];
    }
  }

  lemma WireCapPositive(su: Setup)
    requires su.Valid()
    ensures su.WireCap() > 0
  {
    assert su.FrameCap() >= 1;
  }

  /** Feed the MTP head the collected rows of [i, i+n), one wire batch at a time. */
  method CatchUpBatch(st: Stage, sc: Scene, target: array<Row>, i: nat, n: nat, ghost caught0: seq<Caught>, ghost localEnd: nat)
    returns (ok: bool)
    requires sc.Ready() && sc.mode.Plain? && sc.su.info.mtp && 0 < n && i + n <= localEnd <= |sc.tokens|
    requires n <= target.Length && forall j :: 0 <= j < n ==> target[j] == sc.RowAt(i + j)
    requires Local(sc, st.hist, st.caught, caught0, i, localEnd)
    modifies st`caught, st`trouble
    ensures ok ==> Local(sc, st.hist, st.caught, caught0, i + n, localEnd)
    ensures st.trouble >= old(st.trouble) && (!ok && sc.su.WireCap() <= st.cap ==> st.trouble > old(st.trouble))
  {
    hide Local;
    var wire := sc.su.WireCap();
    WireCapPositive(sc.su);
    var j := 0;
    ok := true;
    while j < n
      invariant 0 <= j <= n && ok
      invariant Local(sc, st.hist, st.caught, caught0, i + j, localEnd) && st.trouble >= old(st.trouble)
    {
      var rows := if n - j > wire then wire else n - j;
      var pos0 := |sc.base|;
      var c := Chunk(pos0 + i + j + rows, rows, i + j);
      TargetRows(sc, target[..], i, j, rows);
      ok := FeedMtp(st, sc, c, target[j..j + rows], caught0, localEnd);
      if !ok { return; }
      j := j + rows;
    }
  }

  lemma TargetRows(sc: Scene, target: seq<Row>, i: nat, j: nat, rows: nat)
    requires i + j + rows <= |sc.tokens| && j + rows <= |target|
    requires forall l :: 0 <= l < j + rows ==> target[l] == sc.RowAt(i + l)
    ensures target[j..j + rows]
            == FinalRows(sc.su.model, sc.All(), sc.Pos0() + i + j, sc.Pos0() + i + j + rows)
  {
    var fr := FinalRows(sc.su.model, sc.All(), sc.Pos0() + i + j, sc.Pos0() + i + j + rows);
    forall l | 0 <= l < rows
      ensures target[j + l] == fr[l]
    {
      assert sc.Pos0() + (i + (j + l)) + 1 == sc.Pos0() + i + j + l + 1;
    }
  }

  /** The next batch on its way into the other host buffer: not evaluated yet, or
      evaluated with the first `stored` rows in place. */
  ghost predicate Loading(sc: Scene, hist: seq<Token>, caught: seq<Caught>, caught0: seq<Caught>,
                          rows: seq<Row>, buffer: seq<Row>, r: nat, at: nat, n: nat, evaluated: bool, stored: nat)
  {
    && r <= at && at + n <= |sc.tokens| && n <= |buffer| && stored <= n
    && if !evaluated then stored == 0 && Local(sc, hist, caught, caught0, r, at)
       else
         && Local(sc, hist, caught, caught0, r, at + n) && InVocab(sc.su.model, sc.tokens[at..at + n])
         && |rows| == n && rows == PrefixRows(sc.su.model, sc.All()[..sc.Pos0() + at + n], sc.Pos0() + at, sc.Pos0() + at + n)
         && buffer[..stored] == rows[..stored]
  }

  /** A batch all of whose rows are stored waits to be sent. */
  lemma Arrived(sc: Scene, hist: seq<Token>, caught: seq<Caught>, caught0: seq<Caught>,
                rows: seq<Row>, buffer: seq<Row>, r: nat, at: nat, n: nat)
    requires Loading(sc, hist, caught, caught0, rows, buffer, r, at, n, true, n)
    ensures Local(sc, hist, caught, caught0, r, at + n)
    ensures Unsent(sc, buffer, at, at, at + n) && InVocab(sc.su.model, sc.tokens[at..at + n])
  {
    hide Local, InVocab;
    BatchStored(sc, rows, buffer, at, n);
  }

  /** An exchange in progress depends neither on the prefix stage's history nor on
      any buffer but its own two. */
  twostate lemma Beside(loop: SpanLoop)
    requires old(loop.Valid()) && loop.sc.mode.Prepared?
    requires unchanged(loop) && loop.link.Future() == old(loop.link.Future())
    requires unchanged(loop.hidden, loop.target, loop.tops, loop.pending)
    ensures loop.Valid()
  {
    hide Link.Future, InVocab, FinalRow, Ring, Scene.Wired, Unsent, Collected, ServedBy;
    assert loop.hidden[..] == old(loop.hidden[..]) && loop.target[..] == old(loop.target[..]);
    assert loop.pending[..] == old(loop.pending[..]);
  }

  /** The caller evaluates the next batch at some moment of a running exchange. */
  method EvalBeside(loop: SpanLoop, intact: bool, sc: Scene, ghost buffer: seq<Row>, at: nat, n: nat, ghost caught0: seq<Caught>, ghost r: nat)
    returns (ok: bool, rows: seq<Row>)
    requires (intact ==> loop.Valid()) && loop.sc.mode.Prepared? && sc.Ready() && sc.mode.Plain? && loop.st.model == sc.su.model
    requires 0 < at && 0 < n && Loading(sc, loop.st.hist, loop.st.caught, caught0, [], buffer, r, at, n, false, 0)
    modifies loop.st`hist, loop.st`trouble
    ensures intact ==> loop.Valid()
    ensures ok ==> Loading(sc, loop.st.hist, loop.st.caught, caught0, rows, buffer, r, at, n, true, 0)
    ensures loop.st.trouble >= old(loop.st.trouble)
    ensures !ok && !loop.st.spec && Feasible(sc, loop.st.ctx, loop.st.cap, loop.st.specPos) ==> loop.st.trouble > old(loop.st.trouble)
  {
    hide FinalRow, Link.Future, SpanLoop.Valid, PrefixRows, Loading, InVocab;
    Unevaluated(sc, loop.st.hist, loop.st.caught, caught0, buffer, r, at, n);
    VocabParts(sc.su.model, sc.tokens, at, at + n);
    ghost var hist := loop.st.hist;
    ok, rows := loop.st.Eval(sc.tokens[at..at + n], |sc.base| + at);
    if intact { Beside(loop); }
    if ok { Evaluated(sc, hist, loop.st.caught, caught0, rows, buffer, r, at, n); }
  }

  lemma Unevaluated(sc: Scene, hist: seq<Token>, caught: seq<Caught>, caught0: seq<Caught>, buffer: seq<Row>, r: nat, at: nat, n: nat)
    requires 0 < at && Loading(sc, hist, caught, caught0, [], buffer, r, at, n, false, 0)
    ensures |hist| == |sc.base| + at && at + n <= |sc.tokens|
  {
  }

  lemma Evaluated(sc: Scene, hist: seq<Token>, caught: seq<Caught>, caught0: seq<Caught>,
                  rows: seq<Row>, buffer: seq<Row>, r: nat, at: nat, n: nat)
    requires 0 < at && 0 < n && Loading(sc, hist, caught, caught0, [], buffer, r, at, n, false, 0)
    requires InVocab(sc.su.model, sc.tokens[at..at + n])
    requires rows == PrefixRows(sc.su.model, hist + sc.tokens[at..at + n], |sc.base| + at, |sc.base| + at + n)
    ensures Loading(sc, hist + sc.tokens[at..at + n], caught, caught0, rows, buffer, r, at, n, true, 0)
  {
    hide FinalRow, InVocab;
    assert hist == sc.All()[..|sc.base| + at];
    assert hist + sc.tokens[at..at + n] == sc.All()[..|sc.base| + at + n];
  }

  /** One row of it reaches the other buffer at some moment of a running exchange. */
  method StoreBeside(loop: SpanLoop, intact: bool, next: array<Row>, k: nat, row: Row)
    requires (intact ==> loop.Valid()) && loop.sc.mode.Prepared? && k < next.Length
    requires next != loop.hidden && next != loop.target
    modifies next
    ensures intact ==> loop.Valid()
    ensures next[..k + 1] == old(next[..k]) + [row]
  {
    hide Link.Future, SpanLoop.Valid;
    next[k] := row;
    if intact { Beside(loop); }
    assert next[..k + 1] == next[..k] + [row];
  }

  /** The connection is shut down under a running exchange, which will fail. */
  method ShutBeside(loop: SpanLoop, intact: bool)
    requires (intact ==> loop.Valid()) && loop.sc.mode.Prepared?
    modifies loop.link
    ensures (intact ==> loop.Valid()) && loop.link.Future() == old(loop.link.Future())
    ensures loop.link.trouble == old(loop.link.trouble)
  {
    hide Link.Future, SpanLoop.Valid;
    loop.link.Shutdown();
    if intact { Beside(loop); }
  }

  lemma PreparedFits(loop: SpanLoop)
    requires loop.sc.mode.Prepared?
    ensures Feasible(loop.sc, loop.st.ctx, loop.st.cap, loop.st.specPos)
  {
  }

  /** The caller may be asked to stop while it waits. */
  method CancelBeside(loop: SpanLoop) returns (cancelled: bool)
    requires loop.Valid() && loop.sc.mode.Prepared?
    modifies loop.st`trouble
    ensures loop.Valid() && loop.st.trouble >= old(loop.st.trouble)
    ensures cancelled ==> loop.st.trouble > old(loop.st.trouble)
  {
    hide SpanLoop.Valid, Link.Future;
    cancelled := loop.st.Trouble();
    Beside(loop);
  }

  /** The overlap.  The I/O thread runs an exchange to its end; the caller evaluates
      the next batch, if there is one, and stores its rows one by one.  Between any
      two steps of the one the other may take any number of its own.  When the
      caller's part fails, or is cancelled while it waits, it shuts the connection
      down and still waits for the exchange. */
  method Overlap(loop: SpanLoop, sc: Scene, next: array<Row>, at: nat, n: nat, ghost caught0: seq<Caught>, ghost r: nat)
    returns (ok: bool)
    requires loop.Valid() && loop.sc.mode.Prepared? && sc.Ready() && sc.mode.Plain? && loop.st.model == sc.su.model
    requires next != loop.hidden && next != loop.target && 0 < at
    requires Loading(sc, loop.st.hist, loop.st.caught, caught0, [], next[..], r, at, n, false, 0)
    modifies loop, loop.link, loop.pending, loop.target, loop.tops, loop.st`hist, loop.st`trouble, next
    ensures !loop.link.Future().fault
    ensures loop.link.trouble >= old(loop.link.trouble) && loop.st.trouble >= old(loop.st.trouble)
    ensures ok && old(loop.link.alive) ==> loop.link.alive
    ensures !ok && old(loop.link.alive) && !loop.st.spec && Feasible(sc, loop.st.ctx, loop.st.cap, loop.st.specPos) ==>
      loop.link.trouble > old(loop.link.trouble) || loop.st.trouble > old(loop.st.trouble)
    ensures ok ==> loop.Valid() && loop.i >= loop.count && loop.head == loop.tail
    ensures ok ==> Local(sc, loop.st.hist, loop.st.caught, caught0, r, at + n)
    ensures ok && n > 0 ==> Unsent(sc, next[..], at, at, at + n) && InVocab(sc.su.model, sc.tokens[at..at + n])
  {
    hide *;
    var running, broken, failed, evaluated := true, false, false, false;
    var rows: seq<Row> := [];
    var stored := 0;
    loop.Bounded();
    PreparedFits(loop);
    while running || (!failed && stored < n)
      invariant 0 <= stored <= n && !loop.link.Future().fault
      invariant (!broken ==> loop.Valid()) && (running ==> !broken && loop.i + loop.head <= 2 * |loop.sc.tokens|)
      invariant !running && !broken ==> loop.i >= loop.count && loop.head == loop.tail
      invariant !failed && !evaluated ==> rows == [] && stored == 0
      invariant loop.link.trouble >= old(loop.link.trouble) && loop.st.trouble >= old(loop.st.trouble)
      invariant !failed && !broken && old(loop.link.alive) ==> loop.link.alive
      invariant broken && !failed && old(loop.link.alive) ==> loop.link.trouble > old(loop.link.trouble)
      invariant failed && !loop.st.spec && Feasible(sc, loop.st.ctx, loop.st.cap, loop.st.specPos) ==>
        loop.link.trouble > old(loop.link.trouble) || loop.st.trouble > old(loop.st.trouble)
      invariant !failed ==> Loading(sc, loop.st.hist, loop.st.caught, caught0, rows, next[..], r, at, n, evaluated, stored)
      decreases if running then 2 * |loop.sc.tokens| + 1 - loop.i - loop.head else 0,
                if failed || stored == n then 0 else n - stored + (if evaluated then 1 else 2)
    {
      ghost var was := next[..];
      var loading := !failed && stored < n;
      var io: bool := *;
      if running && (io || !loading) {
        if !loading && !failed {
          var cancelled := CancelBeside(loop);
          if cancelled {
            ShutBeside(loop, true);
            failed := true;
          }
        }
        if loop.i < loop.count || loop.head != loop.tail {
          running := loop.Iterate();
          assert next[..] == was;
          broken := !running;
          if running { loop.Bounded(); }
        } else {
          running := false;
        }
      } else if !evaluated {
        var evaluation: bool;
        evaluation, rows := EvalBeside(loop, !broken, sc, next[..], at, n, caught0, r);
        if evaluation {
          evaluated := true;
        } else {
          ShutBeside(loop, !broken);
          failed := true;
        }
      } else {
        StoredSoFar(sc, loop.st.hist, loop.st.caught, caught0, rows, next[..], r, at, n, stored);
        StoreBeside(loop, !broken, next, stored, rows[stored]);
        StoredOne(sc, loop.st.hist, loop.st.caught, caught0, rows, was, next[..], r, at, n, stored);
        stored := stored + 1;
      }
    }
    ok := !failed && !broken;
    if ok { Loaded(sc, loop.st.hist, loop.st.caught, caught0, rows, next[..], r, at, n, evaluated); }
  }

  lemma StoredSoFar(sc: Scene, hist: seq<Token>, caught: seq<Caught>, caught0: seq<Caught>,
                    rows: seq<Row>, buffer: seq<Row>, r: nat, at: nat, n: nat, stored: nat)
    requires Loading(sc, hist, caught, caught0, rows, buffer, r, at, n, true, stored)
    ensures |rows| == n <= |buffer|
  {
  }

  lemma StoredOne(sc: Scene, hist: seq<Token>, caught: seq<Caught>, caught0: seq<Caught>,
                  rows: seq<Row>, before: seq<Row>, after: seq<Row>, r: nat, at: nat, n: nat, stored: nat)
    requires Loading(sc, hist, caught, caught0, rows, before, r, at, n, true, stored) && stored < n
    requires |before| == |after| && after[..stored + 1] == before[..stored] + [rows[stored]]
    ensures Loading(sc, hist, caught, caught0, rows, after, r, at, n, true, stored + 1)
  {
    hide Local, InVocab, PrefixRows;
  }

  lemma Loaded(sc: Scene, hist: seq<Token>, caught: seq<Caught>, caught0: seq<Caught>,
               rows: seq<Row>, buffer: seq<Row>, r: nat, at: nat, n: nat, evaluated: bool)
    requires Loading(sc, hist, caught, caught0, rows, buffer, r, at, n, evaluated, n)
    ensures Local(sc, hist, caught, caught0, r, at + n)
    ensures n > 0 ==> Unsent(sc, buffer, at, at, at + n) && InVocab(sc.su.model, sc.tokens[at..at + n])
  {
    hide Local, InVocab, Unsent, PrefixRows;
    if n > 0 { Arrived(sc, hist, caught, caught0, rows, buffer, r, at, n); }
  }

  /** Exchange the batch [i, i+n), reading `current` and writing `target`, while the
      following batch is evaluated into `next`. */
  method Exchange(link: Link, st: Stage, sc: Scene, current: array<Row>, next: array<Row>, target: array<Row>,
                  i: nat, n: nat, following: nat, ghost caught0: seq<Caught>)
    returns (ok: bool)
    requires sc.Ready() && sc.mode.Plain? && ServedBy(sc.su, link.worker) && st.model == sc.su.model
    requires 0 < n && i + n + following <= |sc.tokens| && HeldBy(sc, link.Future(), i)
    requires current != next && target != current && target != next
    requires following <= next.Length && target.Length >= if sc.su.info.mtp then n else 1
    requires InVocab(sc.su.model, sc.tokens[i..i + n]) && Unsent(sc, current[..], i, i, i + n)
    requires Local(sc, st.hist, st.caught, caught0, i, i + n)
    modifies link, st`hist, st`trouble, next, target
    ensures !link.Future().fault
    ensures link.trouble >= old(link.trouble) && st.trouble >= old(st.trouble) && (ok && old(link.alive) ==> link.alive)
    ensures !ok && old(link.alive) && !st.spec && Feasible(sc, st.ctx, st.cap, st.specPos) ==>
      link.trouble > old(link.trouble) || st.trouble > old(st.trouble)
    ensures ok ==> HeldBy(sc, link.Future(), i + n)
    ensures ok && sc.su.info.mtp ==> forall j :: 0 <= j < n ==> target[j] == sc.RowAt(i + j)
    ensures ok && !sc.su.info.mtp && i + n == |sc.tokens| ==> target[0] == FinalRow(sc.su.model, sc.All())
    ensures ok ==> Local(sc, st.hist, st.caught, caught0, i, i + n + following)
    ensures ok && following > 0 ==> Unsent(sc, next[..], i + n, i + n, i + n + following)
                                    && InVocab(sc.su.model, sc.tokens[i + n..i + n + following])
  {
    hide Link.Future, InVocab, Unsent, Local, SpanLoop.Valid, ServedBy, HeldBy, Collected, Done;
    ghost var before := link.Future();
    PartReady(sc, i, n, before);
    PartUnsent(sc, i, n, before, current[..]);
    var tops := new Token[0];
    var part := Scene(sc.su, sc.id, sc.base + sc.tokens[..i], sc.tokens[i..i + n], Prepared(i + n == |sc.tokens|), before);
    var loop := new SpanLoop(link, st, part, current, target, tops);
    assert Loading(sc, st.hist, st.caught, caught0, [], next[..], i, i + n, following, false, 0);
    ok := Overlap(loop, sc, next, i + n, following, caught0, i);
    if !ok { return; }
    loop.Finished();
    PartDone(sc, i, n, before, link.Future());
    PartCollected(sc, i, n, before, target[..]);
  }

  lemma PartCollected(sc: Scene, i: nat, n: nat, before: Served, target: seq<Row>)
    requires sc.Ready() && sc.mode.Plain? && 0 < n && i + n <= |sc.tokens| && HeldBy(sc, before, i)
    requires Collected(Part(sc, i, n, before), target, n)
    ensures sc.su.info.mtp ==> n <= |target| && forall j :: 0 <= j < n ==> target[j] == sc.RowAt(i + j)
    ensures !sc.su.info.mtp && i + n == |sc.tokens| ==> target != [] && target[0] == FinalRow(sc.su.model, sc.All())
  {
    PartReady(sc, i, n, before);
    assert sc.All()[..|sc.All()|] == sc.All();
    forall j | sc.su.info.mtp && 0 <= j < n
      ensures target[j] == sc.RowAt(i + j)
    {
      PartRow(sc, i, n, before, j);
    }
  }
  function Batch(count: nat, i: nat, cap: nat): nat
    requires i <= count
  {
    if count - i > cap then cap else count - i
  }

  /** Before round `i`, the next batch is evaluated and waits in `buffer`. */
  ghost predicate Staged(sc: Scene, hist: seq<Token>, caught: seq<Caught>, caught0: seq<Caught>, buffer: seq<Row>, i: nat, n: nat) {
    && i + n <= |sc.tokens|
    && Local(sc, hist, caught, caught0, i, i + n)
    && (n > 0 ==> Unsent(sc, buffer, i, i, i + n))
    && InVocab(sc.su.model, sc.tokens[..i + n])
  }

  /** One round: exchange the staged batch while the next one is evaluated into
      the other buffer, then feed the rows that came back. */
  method Round(link: Link, st: Stage, sc: Scene, cap: nat, current: array<Row>, next: array<Row>, target: array<Row>,
               i: nat, ghost caught0: seq<Caught>)
    returns (ok: bool, logits: Row)
    requires sc.Ready() && sc.mode.Plain? && ServedBy(sc.su, link.worker) && st.model == sc.su.model
    requires 0 < cap && i < |sc.tokens| && HeldBy(sc, link.Future(), i) && !st.spec
    requires current != next && target != current && target != next
    requires next.Length == cap && target.Length == if sc.su.info.mtp then cap else 1
    requires Staged(sc, st.hist, st.caught, caught0, current[..], i, Batch(|sc.tokens|, i, cap))
    modifies link, st, next, target
    ensures !link.Future().fault && !st.spec
    ensures link.trouble >= old(link.trouble) && st.trouble >= old(st.trouble) && (ok && old(link.alive) ==> link.alive)
    ensures !ok && old(link.alive) && Feasible(sc, st.ctx, st.cap, st.specPos) && sc.su.WireCap() <= st.cap ==>
      link.trouble > old(link.trouble) || st.trouble > old(st.trouble)
    ensures st.specPos == old(st.specPos) && st.resets == old(st.resets)
    ensures var n := Batch(|sc.tokens|, i, cap); ok ==>
      && HeldBy(sc, link.Future(), i + n) && !st.spec
      && Staged(sc, st.hist, st.caught, caught0, next[..], i + n, Batch(|sc.tokens|, i + n, cap))
      && (i + n == |sc.tokens| ==> logits == FinalRow(sc.su.model, sc.All()) == st.projected)
  {
    hide Link.Future, InVocab, Unsent, Local, FinalRow, HeldBy;
    logits := [];
    var count := |sc.tokens|;
    var n := Batch(count, i, cap);
    var following := Batch(count, i + n, cap);
    VocabPart(sc.su.model, sc.tokens, i, i + n, i + n);
    VocabParts(sc.su.model, sc.tokens, i + n, i + n + following);
    ok := Exchange(link, st, sc, current, next, target, i, n, following, caught0);
    if !ok { return; }
    if sc.su.info.mtp {
      ok := CatchUpBatch(st, sc, target, i, n, caught0, i + n + following);
      if !ok { return; }
    } else {
      NoMtp(sc, st.hist, st.caught, caught0, i, i + n, i + n + following);
    }
    if i + n == count {
      LastRow(sc);
      logits := target[if sc.su.info.mtp then n - 1 else 0];
      ok := st.Project(logits);
    }
  }

  lemma LastRow(sc: Scene)
    requires sc.tokens != []
    ensures sc.RowAt(|sc.tokens| - 1) == FinalRow(sc.su.model, sc.All())
  {
    assert sc.All()[..|sc.All()|] == sc.All();
  }

  /** The overlapped prefill has the result of the plain span. */
  method PrefillSpan(link: Link, st: Stage, sc: Scene, cap: nat) returns (ok: bool, logits: Row)
    requires sc.Ready() && sc.mode.Plain? && ServedBy(sc.su, link.worker) && sc.start == link.Future()
    requires st.model == sc.su.model && (sc.base != [] ==> st.hist == sc.base) && !st.spec
    requires 0 < cap <= |sc.tokens|
    modifies link, st
    ensures !link.Future().fault && !st.spec && (sc.base != [] ==> st.resets == old(st.resets))
    ensures ok ==> Done(sc, link.Future(), |sc.tokens|)
    ensures ok ==> logits == FinalRow(sc.su.model, sc.All()) == st.projected
    ensures ok ==> Local(sc, st.hist, st.caught, old(st.caught), |sc.tokens|, |sc.tokens|) && !st.spec
    ensures ok ==> InVocab(sc.su.model, sc.tokens)
    ensures link.trouble >= old(link.trouble) && st.trouble >= old(st.trouble) && (ok && old(link.alive) ==> link.alive)
    ensures !ok && old(link.alive) && Feasible(sc, st.ctx, st.cap, st.specPos) && sc.su.WireCap() <= st.cap ==>
      link.trouble > old(link.trouble) || st.trouble > old(st.trouble)
  {
    hide Link.Future, InVocab, Unsent, Local, FinalRow, HeldBy, Staged, Done;
    var count := |sc.tokens|;
    var current, next := new Row[cap], new Row[cap];
    var target := new Row[if sc.su.info.mtp then cap else 1];
    ghost var caught0 := st.caught;
    logits := [];
    Starting(sc, st.hist, caught0);
    Spare(sc, st.ctx, st.cap, st.specPos, cap);
    ok := LoadBatch(st, sc, current, 0, cap, caught0, 0);
    if !ok { return; }
    LoadedIsStaged(sc, st.hist, st.caught, caught0, current[..], cap);
    var i := 0;
    while i < count
      invariant 0 <= i <= count && ok && !link.Future().fault
      invariant fresh(current) && fresh(next) && fresh(target) && current != next && target != current && target != next
      invariant current.Length == next.Length == cap && target.Length == if sc.su.info.mtp then cap else 1
      invariant HeldBy(sc, link.Future(), i) && !st.spec
      invariant Staged(sc, st.hist, st.caught, caught0, current[..], i, Batch(count, i, cap))
      invariant i == count ==> logits == FinalRow(sc.su.model, sc.All()) == st.projected
      invariant link.trouble >= old(link.trouble) && st.trouble >= old(st.trouble) && (old(link.alive) ==> link.alive)
      invariant st.specPos == old(st.specPos) && (sc.base != [] ==> st.resets == old(st.resets))
    {
      var cancelled := st.Trouble();
      if cancelled { return false, logits; }
      ok, logits := Round(link, st, sc, cap, current, next, target, i, caught0);
      if !ok { return; }
      i := i + Batch(count, i, cap);
      current, next := next, current;
    }
    Ending(sc, link.Future(), st.hist, st.caught, caught0, current[..]);
  }

  /** A span that fits leaves room for its first batch. */
  lemma Spare(sc: Scene, ctx: nat, cap: nat, specPos: nat, n: nat)
    requires sc.mode.Plain? && n <= |sc.tokens|
    ensures Feasible(sc, ctx, cap, specPos) ==> |sc.base| + 0 + n <= ctx && InVocab(sc.su.model, sc.tokens[0..n])
  {
  }

  lemma LoadedIsStaged(sc: Scene, hist: seq<Token>, caught: seq<Caught>, caught0: seq<Caught>, buffer: seq<Row>, n: nat)
    requires n <= |sc.tokens| && Local(sc, hist, caught, caught0, 0, n) && Unsent(sc, buffer, 0, 0, n) && InVocab(sc.su.model, sc.tokens[0..n])
    ensures Staged(sc, hist, caught, caught0, buffer, 0, n)
  {
    assert sc.tokens[..n] == sc.tokens[0..n];
  }

  /** When the last batch has been exchanged and fed, everything is done. */
  lemma Ending(sc: Scene, future: Served, hist: seq<Token>, caught: seq<Caught>, caught0: seq<Caught>, buffer: seq<Row>)
    requires sc.Ready() && sc.tokens != [] && HeldBy(sc, future, |sc.tokens|)
    requires Staged(sc, hist, caught, caught0, buffer, |sc.tokens|, 0)
    ensures Done(sc, future, |sc.tokens|) && Local(sc, hist, caught, caught0, |sc.tokens|, |sc.tokens|)
    ensures InVocab(sc.su.model, sc.tokens)
  {
    assert sc.tokens[..|sc.tokens| + 0] == sc.tokens;
  }

  lemma Starting(sc: Scene, hist: seq<Token>, caught: seq<Caught>)
    requires sc.Ready() && sc.mode.Plain? && (sc.base != [] ==> hist == sc.base)
    ensures Local(sc, hist, caught, caught, 0, 0)
    ensures HeldBy(sc, sc.start, 0) && !sc.start.fault
  {
    assert sc.All()[..sc.Pos0() + 0] == sc.base;
    assert CaughtRows(sc, 0) == [];
    assert sc.start.sessions[sc.id := sc.SessionAt(0)] == sc.start.sessions;
  }

  /** Without an MTP head nothing is caught up. */
  lemma NoMtp(sc: Scene, hist: seq<Token>, caught: seq<Caught>, caught0: seq<Caught>, r: nat, r': nat, localEnd: nat)
    requires !sc.su.info.mtp && Local(sc, hist, caught, caught0, r, localEnd) && r' <= localEnd
    ensures Local(sc, hist, caught, caught0, r', localEnd)
  {
  }
}
