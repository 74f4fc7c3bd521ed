/** Drafting from the session's own history: the continuation of the longest
    earlier occurrence of the text's end, when that is unambiguous. */
module MtpLookup {
  const WINDOW := 65536
  const SHORTEST := 12
  const LONGEST := 16

  /** The `n` tokens ending at `pos` are the last `n` of the history followed by `first`. */
  predicate Matches(h: seq<int>, first: int, pos: nat, n: nat) {
    pos < |h| && n <= pos + 1 && h[pos + 1 - n..pos + 1] == (h + [first])[|h| + 1 - n..]
  }

  /** Positions the scan visits: each leaves room for the continuation. */
  predicate Scanned(h: seq<int>, cap: nat, pos: nat) {
    (if |h| > WINDOW then |h| - WINDOW else SHORTEST - 1) <= pos && pos + cap <= |h|
  }

  /** The longest match anywhere in the window, sixteen tokens at most. */
  ghost predicate LongestIs(h: seq<int>, first: int, cap: nat, n: nat) {
    && SHORTEST <= n <= LONGEST
    && (exists p: nat :: Scanned(h, cap, p) && Matches(h, first, p, n))
    && (n < LONGEST ==> forall p: nat :: Scanned(h, cap, p) ==> !Matches(h, first, p, n + 1))
  }

  function Continuation(h: seq<int>, cap: nat, pos: nat): seq<int>
    requires 1 <= cap && pos + cap <= |h|
  {
    h[pos + 1..pos + cap]
  }

  /** All longest matches go on in the same way. */
  ghost predicate Agreed(h: seq<int>, first: int, cap: nat, n: nat)
    requires 1 <= cap
  {
    forall p: nat, q: nat :: Scanned(h, cap, p) && Matches(h, first, p, n) && Scanned(h, cap, q) && Matches(h, first, q, n) ==>
      Continuation(h, cap, p) == Continuation(h, cap, q)
  }

  /** One token more or less. */
  lemma MatchesMore(h: seq<int>, first: int, pos: nat, n: nat)
    requires pos < |h|
    ensures Matches(h, first, pos, 1) <==> h[pos] == first
    ensures n >= 1 && Matches(h, first, pos, n) ==>
      (Matches(h, first, pos, n + 1) <==> n <= pos && h[pos - n] == h[|h| - n])
    ensures Matches(h, first, pos, n + 1) ==> Matches(h, first, pos, n)
  {
    var hf := h + [first];
    assert hf[|h|] == first;
    assert h[pos..pos + 1] == [h[pos]] && hf[|h|..] == [first];
    if n <= pos {
      assert h[pos - n..pos + 1] == [h[pos - n]] + h[pos + 1 - n..pos + 1];
      assert hf[|h| - n..] == [hf[|h| - n]] + hf[|h| + 1 - n..];
    }
  }

  lemma {:induction false} MatchesFewer(h: seq<int>, first: int, pos: nat, n: nat, m: nat)
    requires m <= n && Matches(h, first, pos, n)
    ensures Matches(h, first, pos, m)
    decreases n
  {
    if m < n {
      MatchesMore(h, first, pos, n - 1);
      MatchesFewer(h, first, pos, n - 1, m);
    }
  }

  /** The inner loop: how far the match at one position reaches. */
  method MatchLength(h: seq<int>, first: int, pos: nat) returns (n: nat)
    requires pos < |h| && h[pos] == first
    ensures 1 <= n <= LONGEST && Matches(h, first, pos, n) && (n < LONGEST ==> !Matches(h, first, pos, n + 1))
  {
    hide Matches;
    n := 1;
    MatchesMore(h, first, pos, 1);
    while n < 16 && n <= pos && n <= |h| && h[pos - n] == h[|h| - n]
      invariant 1 <= n <= LONGEST && Matches(h, first, pos, n)
    {
      MatchesMore(h, first, pos, n);
      n := n + 1;
    }
    MatchesMore(h, first, pos, n);
  }

  /** What the scan knows after the positions below `pos`. */
  ghost predicate Best(h: seq<int>, first: int, cap: nat, pos: nat, best: int, longest: nat, ambiguous: bool)
    requires 1 <= cap
  {
    && SHORTEST - 1 <= longest <= LONGEST && (best < 0 <==> longest == SHORTEST - 1)
    && (best >= 0 ==> best < pos && Scanned(h, cap, best) && Matches(h, first, best, longest))
    && (longest < LONGEST ==> forall p: nat :: p < pos && Scanned(h, cap, p) ==> !Matches(h, first, p, longest + 1))
    && (best >= 0 ==> (ambiguous <==>
          exists p: nat :: p < pos && Scanned(h, cap, p) && Matches(h, first, p, longest)
                           && Continuation(h, cap, p) != Continuation(h, cap, best)))
  }

  lemma BestSkip(h: seq<int>, first: int, cap: nat, pos: nat, best: int, longest: nat, ambiguous: bool)
    requires 1 <= cap && Best(h, first, cap, pos, best, longest, ambiguous)
    requires if best < 0 then !Matches(h, first, pos, SHORTEST) else !Matches(h, first, pos, longest)
    ensures Best(h, first, cap, pos + 1, best, longest, ambiguous)
  {
    hide Matches, Continuation;
    if Matches(h, first, pos, longest + 1) { MatchesFewer(h, first, pos, longest + 1, longest); }
  }

  lemma BestLonger(h: seq<int>, first: int, cap: nat, pos: nat, best: int, longest: nat, ambiguous: bool, n: nat)
    requires 1 <= cap && Best(h, first, cap, pos, best, longest, ambiguous) && Scanned(h, cap, pos)
    requires longest < n <= LONGEST && Matches(h, first, pos, n) && (n < LONGEST ==> !Matches(h, first, pos, n + 1))
    ensures Best(h, first, cap, pos + 1, pos, n, false)
  {
    hide Matches, Continuation;
    forall p: nat, m: nat | p < pos && Scanned(h, cap, p) && longest < m ensures !Matches(h, first, p, m) {
      if Matches(h, first, p, m) { MatchesFewer(h, first, p, m, longest + 1); }
    }
  }

  lemma BestSame(h: seq<int>, first: int, cap: nat, pos: nat, best: int, longest: nat, ambiguous: bool)
    requires 1 <= cap && Best(h, first, cap, pos, best, longest, ambiguous) && Scanned(h, cap, pos) && best >= 0
    requires Matches(h, first, pos, longest) && (longest < LONGEST ==> !Matches(h, first, pos, longest + 1))
    ensures Best(h, first, cap, pos + 1, best, longest, ambiguous || Continuation(h, cap, best) != Continuation(h, cap, pos))
  {
    hide Matches, Continuation;
  }

  /** At the end, what is best is longest, and unambiguous means agreed. */
  lemma BestDecides(h: seq<int>, first: int, cap: nat, pos: nat, best: int, longest: nat, ambiguous: bool)
    requires 1 <= cap && pos + cap > |h| && Best(h, first, cap, pos, best, longest, ambiguous)
    ensures best >= 0 ==> LongestIs(h, first, cap, longest) && (ambiguous <==> !Agreed(h, first, cap, longest))
    ensures forall n: nat :: LongestIs(h, first, cap, n) ==> best >= 0 && n == longest
  {
    hide Matches, Continuation;
    forall n: nat | LongestIs(h, first, cap, n) ensures best >= 0 && n == longest {
      var p: nat :| Scanned(h, cap, p) && Matches(h, first, p, n);
      if n > longest { MatchesFewer(h, first, p, n, longest + 1); }
      if n < longest { MatchesFewer(h, first, best, longest, n + 1); }
    }
  }

  /** The lookup drafts exactly when a longest match exists and all of them agree;
      the draft is then `first` and what followed. */
  method Lookup(h: seq<int>, first: int, draft: array<int>, cap: int) returns (n: int)
    requires cap <= draft.Length
    modifies draft
    ensures n == 0 || n == cap
    ensures n > 0 <==> (cap >= 2 && |h| >= 13 && cap <= |h| - 11
                        && exists m: nat :: LongestIs(h, first, cap, m) && Agreed(h, first, cap, m))
    ensures n == 0 ==> draft[..] == old(draft[..])
    ensures n > 0 ==> exists m: nat, p: nat :: LongestIs(h, first, cap, m) && Scanned(h, cap, p) && Matches(h, first, p, m)
                        && draft[..] == [first] + Continuation(h, cap, p) + old(draft[cap..])
  {
    hide Matches, LongestIs, Agreed, Best;
    if cap < 2 || |h| < 13 || cap > |h| - 11 { return 0; }
    var best, longest, ambiguous := -1, 11, false;
    var start := if |h| > WINDOW then |h| - WINDOW else 11;
    BestNothing(h, first, cap, start);
    var pos: nat := start;
    while pos <= |h| - cap
      invariant start <= pos && Best(h, first, cap, pos, best, longest, ambiguous)
      invariant longest >= 11 && (best < 0 ==> longest == 11) && (best >= 0 ==> best + cap <= |h|)
      invariant draft[..] == old(draft[..])
    {
      best, longest, ambiguous := Visit(h, first, cap, pos, best, longest, ambiguous);
      pos := pos + 1;
    }
    BestDecides(h, first, cap, pos, best, longest, ambiguous);
    if best < 0 || ambiguous { return 0; }
    BestAt(h, first, cap, pos, best, longest, ambiguous);
    ghost var rest := draft[cap..];
    assert rest == draft[..][cap..] == old(draft[..])[cap..];
    draft[0] := first;
    for k := 1 to cap
      invariant draft[..k] == [first] + h[best + 1..best + k] && draft[cap..] == rest
    {
      draft[k] := h[best + k];
      assert draft[..k + 1] == draft[..k] + [h[best + k]];
    }
    assert draft[..] == draft[..cap] + draft[cap..];
    return cap;
  }

  lemma BestNothing(h: seq<int>, first: int, cap: nat, start: nat)
    requires 1 <= cap && start == if |h| > WINDOW then |h| - WINDOW else 11
    ensures Best(h, first, cap, start, -1, 11, false)
  {
  }

  lemma BestAt(h: seq<int>, first: int, cap: nat, pos: nat, best: int, longest: nat, ambiguous: bool)
    requires 1 <= cap && Best(h, first, cap, pos, best, longest, ambiguous) && best >= 0
    ensures Scanned(h, cap, best) && Matches(h, first, best, longest)
  {
  }

  /** The outer loop's body. */
  method Visit(h: seq<int>, first: int, cap: nat, pos: nat, best: int, longest: nat, ambiguous: bool)
    returns (best': int, longest': nat, ambiguous': bool)
    requires 1 <= cap && Scanned(h, cap, pos) && Best(h, first, cap, pos, best, longest, ambiguous)
    ensures Best(h, first, cap, pos + 1, best', longest', ambiguous')
    ensures longest' >= 11 && (best' < 0 ==> longest' == 11) && (best' >= 0 ==> best' + cap <= |h|)
  {
    hide Matches;
    best', longest', ambiguous' := best, longest, ambiguous;
    if h[pos] != first {
      MatchesMore(h, first, pos, 1);
      forall m: nat | m >= 1 ensures !Matches(h, first, pos, m) {
        if Matches(h, first, pos, m) { MatchesFewer(h, first, pos, m, 1); }
      }
      BestSkip(h, first, cap, pos, best, longest, ambiguous);
      return;
    }
    var n := MatchLength(h, first, pos);
    if n < 12 || n < longest {
      forall m: nat | m > n ensures !Matches(h, first, pos, m) {
        if Matches(h, first, pos, m) { MatchesFewer(h, first, pos, m, n + 1); }
      }
      BestSkip(h, first, cap, pos, best, longest, ambiguous);
      return;
    }
    if n > longest {
      BestLonger(h, first, cap, pos, best, longest, ambiguous, n);
      best', longest', ambiguous' := pos, n, false;
    } else {
      BestSame(h, first, cap, pos, best, longest, ambiguous);
      if h[best + 1..best + cap] != h[pos + 1..pos + cap] { ambiguous' := true; }
    }
  }
}
