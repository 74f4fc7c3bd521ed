/** The two model stages of the pipeline, seen as deterministic functions over
    token histories.  The coordinator's prefix layers turn a token history into
    one residual row; the worker's suffix layers turn the (token, residual)
    history they have consumed into one final row; the vocabulary projection of
    a final row picks a token.  What the functions compute is a parameter. */
module Stages {
  type Token = int
  /** A hidden row: the raw 32-bit words of `nEmbd` floats. */
  type Row = seq<int>

  datatype Pair = Pair(token: Token, row: Row)

  datatype Model = Model(
    nEmbd: nat,
    nVocab: nat,
    prefix: seq<Token> -> Row,
    suffix: seq<Pair> -> Row,
    top: (Row, int) -> Token)
  {
    ghost predicate WellFormed() {
      && (forall h :: |prefix(h)| == nEmbd)
      && (forall ps :: |suffix(ps)| == nEmbd)
    }
  }

  /** All tokens lie in the vocabulary, as the prefix stage checks. */
  ghost predicate InVocab(m: Model, ts: seq<Token>) {
    forall i :: 0 <= i < |ts| ==> 0 <= ts[i] < m.nVocab
  }

  /** What the worker has consumed once both stages have seen `hist`. */
  function Annotate(m: Model, hist: seq<Token>): (ps: seq<Pair>)
    ensures |ps| == |hist|
  {
    seq(|hist|, i requires 0 <= i < |hist| => Pair(hist[i], m.prefix(hist[..i + 1])))
  }

  /** The row the two stages together produce for the last token of `hist`. */
  function FinalRow(m: Model, hist: seq<Token>): Row {
    m.suffix(Annotate(m, hist))
  }

  /** Residual rows of tokens [lo, hi) of a history. */
  function PrefixRows(m: Model, hist: seq<Token>, lo: nat, hi: nat): (rows: seq<Row>)
    requires lo <= hi <= |hist|
    ensures |rows| == hi - lo
  {
    seq(hi - lo, j requires 0 <= j < hi - lo => m.prefix(hist[..lo + j + 1]))
  }

  /** Final rows of tokens [lo, hi) of a history. */
  function FinalRows(m: Model, hist: seq<Token>, lo: nat, hi: nat): (rows: seq<Row>)
    requires lo <= hi <= |hist|
    ensures |rows| == hi - lo
  {
    seq(hi - lo, j requires 0 <= j < hi - lo => FinalRow(m, hist[..lo + j + 1]))
  }

  /** Consuming a longer history only appends. */
  lemma AnnotatePrefix(m: Model, hist: seq<Token>, n: nat)
    requires n <= |hist|
    ensures Annotate(m, hist)[..n] == Annotate(m, hist[..n])
  {
    forall i | 0 <= i < n
      ensures Annotate(m, hist)[i] == Annotate(m, hist[..n])[i]
    {
      assert hist[..n][..i + 1] == hist[..i + 1];
    }
  }

  function Zip(ts: seq<Token>, rows: seq<Row>): (ps: seq<Pair>)
    requires |ts| == |rows|
    ensures |ps| == |ts|
  {
    seq(|ts|, i requires 0 <= i < |ts| => Pair(ts[i], rows[i]))
  }

  /** Appending a chunk's tokens with the prefix rows of the same positions is
      consuming the longer history. */
  lemma AnnotateChunk(m: Model, hist: seq<Token>, lo: nat, hi: nat)
    requires lo <= hi <= |hist|
    ensures Annotate(m, hist[..lo]) + Zip(hist[lo..hi], PrefixRows(m, hist, lo, hi)) == Annotate(m, hist[..hi])
  {
    var l := Annotate(m, hist[..lo]) + Zip(hist[lo..hi], PrefixRows(m, hist, lo, hi));
    forall i | 0 <= i < hi
      ensures l[i] == Annotate(m, hist[..hi])[i]
    {
      assert hist[..hi][..i + 1] == hist[..i + 1];
      if i < lo {
        assert hist[..lo][..i + 1] == hist[..i + 1];
      } else {
        assert hist[..lo + (i - lo) + 1] == hist[..i + 1];
      }
    }
  }
}
