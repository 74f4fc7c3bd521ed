/** Pipelined verification of a drafted block, against serial greedy decoding. */
module Speculation {
  import opened Stages
  import opened Wire
  import opened Coordinator
  import opened Span

  /** Serial decoding of a drafted block on top of `hist`: consume the first
      token; go on with the next one only if the consumed token is not eos and
      the two stages pick exactly that next token. */
  function SerialLen(m: Model, hist: seq<Token>, tokens: seq<Token>, eos: Token, excluded: int): (n: nat)
    requires tokens != []
    ensures 1 <= n <= |tokens|
    decreases |tokens|
  {
    if |tokens| == 1 || tokens[0] == eos
       || m.top(FinalRow(m, hist + tokens[..1]), excluded) != tokens[1] then 1
    else 1 + SerialLen(m, hist + tokens[..1], tokens[1..], eos, excluded)
  }

  /** Token `j` continues the block: it is the two-stage pick after its
      predecessors, and the token before it is not eos. */
  ghost predicate Follows(m: Model, hist: seq<Token>, tokens: seq<Token>, eos: Token, excluded: int, j: nat) {
    0 < j < |tokens| && tokens[j - 1] != eos && tokens[j] == m.top(FinalRow(m, hist + tokens[..j]), excluded)
  }

  ghost predicate Confirmed(m: Model, hist: seq<Token>, tokens: seq<Token>, eos: Token, excluded: int, n: nat) {
    1 <= n <= |tokens| && forall j: nat :: 0 < j < n ==> Follows(m, hist, tokens, eos, excluded, j)
  }

  lemma FollowsShift(m: Model, hist: seq<Token>, tokens: seq<Token>, eos: Token, excluded: int, j: nat)
    requires 0 < j && tokens != []
    ensures Follows(m, hist, tokens, eos, excluded, j + 1)
            == Follows(m, hist + tokens[..1], tokens[1..], eos, excluded, j)
  {
    if j + 1 < |tokens| {
      assert tokens[..1] + tokens[1..][..j] == tokens[..j + 1];
      assert (hist + tokens[..1]) + tokens[1..][..j] == hist + tokens[..j + 1];
    }
  }

  /** SerialLen is the longest confirmed prefix. */
  lemma {:induction false} SerialIsLongest(m: Model, hist: seq<Token>, tokens: seq<Token>, eos: Token, excluded: int)
    requires tokens != []
    ensures Confirmed(m, hist, tokens, eos, excluded, SerialLen(m, hist, tokens, eos, excluded))
    ensures forall n: nat :: Confirmed(m, hist, tokens, eos, excluded, n) ==> n <= SerialLen(m, hist, tokens, eos, excluded)
    decreases |tokens|
  {
    var h, rest := hist + tokens[..1], tokens[1..];
    if |tokens| > 1 && Follows(m, hist, tokens, eos, excluded, 1) {
      SerialIsLongest(m, h, rest, eos, excluded);
      var r := SerialLen(m, h, rest, eos, excluded);
      forall j: nat | 0 < j < 1 + r
        ensures Follows(m, hist, tokens, eos, excluded, j)
      {
        if j > 1 { FollowsShift(m, hist, tokens, eos, excluded, j - 1); }
      }
      forall n: nat | Confirmed(m, hist, tokens, eos, excluded, n)
        ensures n <= 1 + r
      {
        if n > 1 {
          forall j: nat | 0 < j < n - 1
            ensures Follows(m, h, rest, eos, excluded, j)
          {
            FollowsShift(m, hist, tokens, eos, excluded, j);
          }
          assert Confirmed(m, h, rest, eos, excluded, n - 1);
        }
      }
    }
  }

  lemma LongestIs(m: Model, hist: seq<Token>, tokens: seq<Token>, eos: Token, excluded: int, k: nat)
    requires Confirmed(m, hist, tokens, eos, excluded, k)
    requires k == |tokens| || !Follows(m, hist, tokens, eos, excluded, k)
    ensures k == SerialLen(m, hist, tokens, eos, excluded)
  {
    SerialIsLongest(m, hist, tokens, eos, excluded);
  }

  /** The verdicts of a finished verification end exactly at the serial length:
      tokens still in flight when it stopped do not matter. */
  lemma VerdictIsSerial(sc: Scene, tops: seq<Token>, k: nat, sent: nat, stopped: bool, projected: Row)
    requires sc.Ready() && sc.mode.Verify? && 0 < sent
    requires Judged(sc, tops, k, sent, stopped, projected) && (sent < |sc.tokens| ==> stopped)
    ensures 0 < k && k == SerialLen(sc.su.model, sc.base, sc.tokens, sc.mode.eos, sc.mode.excluded)
    ensures projected == sc.RowAt(k - 1)
  {
    var m, eos, ex := sc.su.model, sc.mode.eos, sc.mode.excluded;
    forall j: nat | 0 < j <= k && j < |sc.tokens|
      ensures Follows(m, sc.base, sc.tokens, eos, ex, j) == (sc.tokens[j - 1] != eos && sc.tokens[j] == tops[j - 1])
    {
      assert sc.All()[..sc.Pos0() + (j - 1) + 1] == sc.base + sc.tokens[..j];
      assert tops[j - 1] == sc.TopAt(j - 1);
    }
    forall j: nat | 0 < j < k
      ensures Follows(m, sc.base, sc.tokens, eos, ex, j)
    {
      assert tops[j - 1] == sc.tokens[j];
    }
    LongestIs(m, sc.base, sc.tokens, eos, ex, k);
  }

  /** The commit count read off the verdicts. */
  method CommitCount(sc: Scene, tops: array<Token>, sent: nat, ghost k: nat, ghost stopped: bool, ghost projected: Row)
    returns (commit: nat)
    requires sc.Ready() && sc.mode.Verify? && 0 < sent
    requires Judged(sc, tops[..], k, sent, stopped, projected) && (sent < |sc.tokens| ==> stopped)
    ensures 0 < commit == k <= sent
  {
    var eos := sc.mode.eos;
    commit := 1;
    while commit < sent && sc.tokens[commit - 1] != eos
      invariant 1 <= commit <= k
    {
      if tops[commit - 1] != sc.tokens[commit] { break; }
      commit := commit + 1;
    }
  }

  lemma ServeCommit(w: Worker, ss: map<int, WSession>, id: int, count: nat)
    requires id != 0 && id in ss && ss[id].spec && 1 <= count && ss[id].specPos + count <= |ss[id].pairs|
    ensures w.Serve(ss, Frame(KIND_COMMIT, [id, count]))
            == Served(ss[id := ss[id].(pairs := ss[id].pairs[..ss[id].specPos + count], spec := false)],
                      [ResultFrame(id, ss[id].specPos + count, [])], false)
  {
  }

  /** Committing rolls the worker back to the first `commit` tokens of the block. */
  lemma CommitServed(sc: Scene, w: Worker, future: Served, sent: nat, commit: nat)
    requires sc.Ready() && sc.mode.Verify? && Done(sc, future, sent) && 0 < commit <= sent
    ensures w.Extend(future, Frame(KIND_COMMIT, [sc.id, commit])).replies
            == [ResultFrame(sc.id, sc.Pos0() + commit, [])]
    ensures Committed(sc, w.Extend(future, Frame(KIND_COMMIT, [sc.id, commit])).(replies := []), commit)
  {
    var ws := future.sessions[sc.id];
    ServeCommit(w, future.sessions, sc.id, commit);
    AnnotatePrefix(sc.su.model, sc.All()[..sc.Pos0() + sent], sc.Pos0() + commit);
    assert sc.All()[..sc.Pos0() + sent][..sc.Pos0() + commit] == sc.base + sc.tokens[..commit];
    var after := w.Extend(future, Frame(KIND_COMMIT, [sc.id, commit])).sessions;
    assert after == sc.start.sessions[sc.id := after[sc.id]];
  }

  /** Send the commit, roll the prefix stage back, feed the MTP head the
      committed rows, and wait for the worker's acknowledgement. */
  method Commit(link: Link, st: Stage, sc: Scene, rows: seq<Row>, ghost sent: nat, commit: nat, ghost caught0: seq<Caught>)
    returns (ok: bool, logits: Row)
    requires sc.Ready() && sc.mode.Verify? && ServedBy(sc.su, link.worker)
    requires 0 < commit <= sent && Done(sc, link.Future(), sent)
    requires st.spec && st.specPos == |sc.base| && Local(sc, st.hist, st.caught, caught0, sent, sent)
    requires |rows| == commit && forall j :: 0 <= j < commit ==> rows[j] == sc.RowAt(j)
    requires st.projected == sc.RowAt(commit - 1)
    modifies link, st
    ensures !link.Future().fault && st.resets == old(st.resets)
    ensures link.trouble >= old(link.trouble) && st.trouble >= old(st.trouble) && (ok && old(link.alive) ==> link.alive)
    ensures !ok && old(link.alive) && commit <= st.cap ==> link.trouble > old(link.trouble) || st.trouble > old(st.trouble)
    ensures ok ==> Committed(sc, link.Future(), commit)
    ensures ok ==> st.hist == sc.base + sc.tokens[..commit] && !st.spec
                   && st.caught == caught0 + CaughtRows(sc, commit)
    ensures ok ==> logits == sc.RowAt(commit - 1) == st.projected
  {
    hide Link.Future, FinalRow;
    logits := [];
    CommitServed(sc, link.worker, link.Future(), sent, commit);
    ok := link.Send(Frame(KIND_COMMIT, [sc.id, commit]));
    if !ok { return; }
    assert st.hist[..|sc.base| + commit] == sc.base + sc.tokens[..commit];
    ok := st.SpecCommit(commit);
    if !ok { return; }
    ok := st.Catchup(sc.tokens[..commit], |sc.base|, rows);
    if !ok { return; }
    assert NewlyCaught(sc.tokens[..commit], sc.Pos0(), rows) == CaughtRows(sc, commit);
    var wrong := st.Trouble();
    if wrong { return false, logits; }
    logits := st.projected;
    var acknowledged;
    ok, acknowledged := ResultRows(link, sc.su, sc.id, |sc.base| + commit, 0);
  }

  /** Verify a drafted block and commit its confirmed prefix on both sides.
      `sc.start` is the worker before the block. */
  method VerifyAndCommit(link: Link, st: Stage, sc: Scene) returns (ok: bool, commit: nat, logits: Row)
    requires sc.Ready() && sc.mode.Verify? && ServedBy(sc.su, link.worker) && sc.start == link.Future()
    requires st.model == sc.su.model && st.hist == sc.base && !st.spec
    modifies link, st
    ensures !link.Future().fault && (sc.base != [] ==> st.resets == old(st.resets))
    ensures link.trouble >= old(link.trouble) && st.trouble >= old(st.trouble) && (ok && old(link.alive) ==> link.alive)
    ensures !ok && old(link.alive) && sc.Pos0() + |sc.tokens| <= st.ctx && InVocab(sc.su.model, sc.tokens)
            && SerialLen(sc.su.model, sc.base, sc.tokens, sc.mode.eos, sc.mode.excluded) <= st.cap ==>
      link.trouble > old(link.trouble) || st.trouble > old(st.trouble)
    ensures ok ==> commit <= |sc.tokens| && InVocab(sc.su.model, sc.tokens[..commit])
    ensures ok ==> commit == SerialLen(sc.su.model, sc.base, sc.tokens, sc.mode.eos, sc.mode.excluded)
    ensures ok ==> Committed(sc, link.Future(), commit)
    ensures ok ==> st.hist == sc.base + sc.tokens[..commit] && !st.spec
                   && st.caught == old(st.caught) + CaughtRows(sc, commit)
    ensures ok ==> logits == sc.RowAt(commit - 1) == st.projected
  {
    hide Link.Future, Local, Judged, FinalRow;
    commit, logits := 0, [];
    ok := st.SpecBegin();
    if !ok { return; }
    var none, target, tops := new Row[0], new Row[|sc.tokens|], new Token[|sc.tokens|];
    var sent, stopped;
    ghost var k;
    ok, sent, logits, k, stopped := SpanBody(link, st, sc, none, target, tops);
    if !ok { return; }
    VerdictIsSerial(sc, tops[..], k, sent, stopped, st.projected);
    commit := CommitCount(sc, tops, sent, k, stopped, st.projected);
    ok, logits := Commit(link, st, sc, target[..commit], sent, commit, old(st.caught));
  }

  /** What the worker holds after the commit. */
  ghost predicate Committed(sc: Scene, future: Served, commit: nat)
    requires sc.Ready()
  {
    && commit <= |sc.tokens| && !future.fault && future.replies == []
    && future.sessions == sc.start.sessions[sc.id := WSession(sc.start.sessions[sc.id].ctx,
         Annotate(sc.su.model, sc.base + sc.tokens[..commit]), false, sc.Pos0())]
  }
}
