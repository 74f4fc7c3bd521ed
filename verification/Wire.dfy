/** Frames, the worker's service of one frame, and the connection between the
    two stages. */
module Wire {
  import Basics
  import opened Stages

  const KIND_ERROR := 2
  const KIND_CREATE := 3
  const KIND_WORK := 4
  const KIND_RESULT := 5
  const KIND_FREE := 6
  const KIND_COMMIT := 7
  const MAX_FRAME := 64 * 1024 * 1024
  const VERIFY_MAX := 8

  /** A frame's kind and its payload, in 32-bit words. */
  datatype Frame = Frame(kind: nat, words: seq<int>)
  {
    function Bytes(): nat { 4 * |words| }
  }

  datatype Flags = Flags(reset: bool, logits: bool, rows: bool, spec: bool, begin: bool)

  function Bit(b: bool): nat { if b then 1 else 0 }

  function FlagWord(f: Flags): nat {
    Bit(f.reset) + 2 * Bit(f.logits) + 4 * Bit(f.rows) + 8 * Bit(f.spec) + 16 * Bit(f.begin)
  }

  /** The flags of a word; the caller has checked that no other bit is set. */
  function ReadFlags(w: int): Flags {
    Flags(w % 2 == 1, w / 2 % 2 == 1, w / 4 % 2 == 1, w / 8 % 2 == 1, w / 16 % 2 == 1)
  }

  lemma FlagsRoundTrip(f: Flags)
    ensures 0 <= FlagWord(f) < 32 && ReadFlags(FlagWord(f)) == f
  {
    match f
    case Flags(a, b, c, d, e) =>
      assert FlagWord(f) == Bit(a) + 2 * Bit(b) + 4 * Bit(c) + 8 * Bit(d) + 16 * Bit(e);
  }

  /** Rows are sent one after another. */
  function PutRows(rows: seq<Row>): seq<int> {
    if rows == [] then [] else rows[0] + PutRows(rows[1..])
  }

  function GetRows(words: seq<int>, width: nat, n: nat): (rows: seq<Row>)
    requires |words| == n * width
    ensures |rows| == n
  {
    if n == 0 then []
    else
      RestWidth(n, width);
      [words[..width]] + GetRows(words[width..], width, n - 1)
  }

  lemma RestWidth(n: nat, width: nat)
    requires n > 0
    ensures n * width >= width && n * width - width == (n - 1) * width
  {
    assert n * width == (n - 1) * width + width;
  }

  lemma {:induction false} RowsRoundTrip(rows: seq<Row>, width: nat)
    requires forall i :: 0 <= i < |rows| ==> |rows[i]| == width
    ensures |PutRows(rows)| == |rows| * width
    ensures GetRows(PutRows(rows), width, |rows|) == rows
  {
    if rows != [] {
      RowsRoundTrip(rows[1..], width);
      RestWidth(|rows|, width);
      assert PutRows(rows) == rows[0] + PutRows(rows[1..]);
      assert PutRows(rows)[..width] == rows[0];
      assert PutRows(rows)[width..] == PutRows(rows[1..]);
    }
  }

  function WorkFrame(id: int, pos: nat, flags: Flags, tokens: seq<Token>, rows: seq<Row>): Frame {
    Frame(KIND_WORK, [id, pos, |tokens|, FlagWord(flags)] + tokens + PutRows(rows))
  }

  function ResultFrame(id: int, pos: int, rows: seq<Row>): Frame {
    Frame(KIND_RESULT, [id, pos] + PutRows(rows))
  }

  /** What a stage announces about itself (q36_dist_model_info). */
  datatype Info = Info(
    nLayers: nat, nEmbd: nat, nVocab: nat, layerStart: nat, layerEnd: nat,
    contextSize: nat, prefillCap: nat, fingerprint: nat, speculation: bool, mtp: bool)

  const CONTEXT_ALLOC_MAX := 262145
  const UINT32 := 0x1_0000_0000

  /** Does a stage accept the peer's hello?  Word arithmetic is 32-bit. */
  predicate HelloAccepts(coordinator: bool, own: Info, peer: Info) {
    && peer.nLayers == own.nLayers && peer.nEmbd == own.nEmbd && peer.nVocab == own.nVocab
    && peer.fingerprint == own.fingerprint
    && 0 < peer.contextSize <= CONTEXT_ALLOC_MAX && 0 < peer.prefillCap <= 8192
    && (coordinator ==>
          peer.layerStart == (own.layerEnd + 1) % UINT32 && (peer.layerEnd + 1) % UINT32 == own.nLayers)
    && (!coordinator ==> peer.layerStart == 0 && (peer.layerEnd + 1) % UINT32 == own.layerStart)
    && !(coordinator && peer.mtp)
    && ((own.mtp || peer.mtp) ==> own.speculation && peer.speculation)
  }

  /** When both sides accept, the two stages split one model: the same model,
      every layer exactly once, usable capacities, and MTP only where both can
      speculate; and every such pair is accepted. */
  lemma HelloSplitsModel(c: Info, w: Info)
    requires c.layerEnd < c.nLayers < UINT32 && w.layerEnd < w.nLayers < UINT32
    ensures HelloAccepts(true, c, w) && HelloAccepts(false, w, c) <==>
      && c.nLayers == w.nLayers && c.nEmbd == w.nEmbd && c.nVocab == w.nVocab && c.fingerprint == w.fingerprint
      && c.layerStart == 0 && w.layerStart == c.layerEnd + 1 && w.layerEnd == c.nLayers - 1
      && 0 < c.contextSize <= CONTEXT_ALLOC_MAX && 0 < w.contextSize <= CONTEXT_ALLOC_MAX
      && 0 < c.prefillCap <= 8192 && 0 < w.prefillCap <= 8192
      && !w.mtp && (c.mtp ==> c.speculation && w.speculation)
  {
  }

  /** One worker session: its context bound, what its suffix layers consumed,
      and the speculative frontier if a transaction is open. */
  datatype WSession = WSession(ctx: nat, pairs: seq<Pair>, spec: bool, specPos: nat)

  /** What serving frames leaves behind: the sessions, the replies in order, and
      whether a check failed.  A failed check ends the worker loop, which frees
      every session and answers with an error frame. */
  datatype Served = Served(sessions: map<int, WSession>, replies: seq<Frame>, fault: bool)

  const REFUSED := Served(map[], [Frame(KIND_ERROR, [])], true)

  /** The worker's constants: the model, its own info, and the coordinator's MTP
      flag as announced in its hello. */
  datatype Worker = Worker(model: Model, info: Info, peerMtp: bool)
  {
    function Served1(ss: map<int, WSession>, reply: Frame): Served {
      Served(ss, [reply], false)
    }

    /** One iteration of the worker loop on a received frame. */
    function Serve(ss: map<int, WSession>, f: Frame): Served {
      var id := if |f.words| >= 1 then f.words[0] else 0;
      if f.Bytes() > MAX_FRAME then REFUSED
      else if id == 0 then REFUSED
      else if f.kind == KIND_CREATE && |f.words| == 2 && id !in ss then
        var ctx := f.words[1];
        if ctx <= 0 || ctx > info.contextSize then REFUSED
        else Served1(ss[id := WSession(ctx, [], false, 0)], ResultFrame(id, 0, []))
      else if f.kind == KIND_FREE && |f.words| == 1 && id in ss then
        Served1(ss - {id}, ResultFrame(id, 0, []))
      else if f.kind == KIND_COMMIT && |f.words| == 2 && id in ss && ss[id].spec then
        var s, count := ss[id], f.words[1];
        if count < 1 || s.specPos + count > |s.pairs| then REFUSED
        else Served1(ss[id := s.(pairs := s.pairs[..s.specPos + count], spec := false)],
                     ResultFrame(id, s.specPos + count, []))
      else if f.kind == KIND_WORK && |f.words| >= 4 && id in ss then
        Work(ss, id, f.words)
      else REFUSED
    }

    /** The shape checks of a WORK frame. */
    predicate WorkShape(s: WSession, words: seq<int>)
      requires |words| >= 4
    {
      var pos, n, w := words[1], words[2], words[3];
      && 0 < n <= info.prefillCap && |words| == 4 + n * (1 + model.nEmbd)
      && 0 <= pos && pos + n <= s.ctx
      && 0 <= w < 32
      && var f := ReadFlags(w);
      && (f.reset ==> pos == 0)
      && (f.rows ==> peerMtp)
      && (f.begin ==> f.spec && !s.spec && pos != 0)
      && (f.spec ==> peerMtp && info.speculation && n == 1 && f.rows && !f.reset && (f.begin || s.spec))
      && (s.spec ==> f.spec)
    }

    function Work(ss: map<int, WSession>, id: int, words: seq<int>): Served
      requires |words| >= 4 && id in ss
    {
      var pos, n := words[1], words[2];
      if !WorkShape(ss[id], words) then REFUSED
      else
        assert n * (1 + model.nEmbd) == n + n * model.nEmbd;
        Advance(ss, id, pos, ReadFlags(words[3]), words[4..4 + n], GetRows(words[4 + n..], model.nEmbd, n))
    }

    /** The suffix stage's part: it evaluates only the next positions, and at
        most VERIFY_MAX tokens of an open transaction. */
    function Advance(ss: map<int, WSession>, id: int, pos: nat, f: Flags, tokens: seq<Token>, rows: seq<Row>): Served
      requires id in ss && |tokens| == |rows|
    {
      var s0 := if f.reset then ss[id].(pairs := []) else ss[id];
      var s := if f.begin then s0.(spec := true, specPos := pos) else s0;
      if pos != |s.pairs| || (s.spec && |s.pairs| >= s.specPos + VERIFY_MAX)
         || (exists i :: 0 <= i < |tokens| && (tokens[i] < 0 || tokens[i] >= model.nVocab)) then REFUSED
      else if f.rows && !info.speculation then REFUSED
      else
        var ps := s.pairs + Zip(tokens, rows);
        Served1(ss[id := s.(pairs := ps)], ResultFrame(id, pos + |tokens|, Returned(f, ps, pos, |tokens|)))
    }

    /** The rows a WORK frame asks for. */
    function Returned(f: Flags, ps: seq<Pair>, pos: nat, n: nat): seq<Row>
      requires pos + n <= |ps|
    {
      if f.rows then seq(n, j requires 0 <= j < n => model.suffix(ps[..pos + j + 1]))
      else if f.logits then [model.suffix(ps)]
      else []
    }

    /** Serving a queue in order; nothing is served after a failed check. */
    function ServeAll(ss: map<int, WSession>, queue: seq<Frame>): Served
      decreases |queue|
    {
      if queue == [] then Served(ss, [], false)
      else
        var one := Serve(ss, queue[0]);
        if one.fault then one
        else
          var rest := ServeAll(one.sessions, queue[1..]);
          Served(rest.sessions, one.replies + rest.replies, rest.fault)
    }

    /** What one more frame at the end of the queue adds. */
    function Extend(o: Served, f: Frame): Served {
      if o.fault then o
      else
        var one := Serve(o.sessions, f);
        Served(one.sessions, o.replies + one.replies, one.fault)
    }

    lemma {:induction false} ServeAllSnoc(ss: map<int, WSession>, queue: seq<Frame>, f: Frame)
      ensures ServeAll(ss, queue + [f]) == Extend(ServeAll(ss, queue), f)
      decreases |queue|
    {
      hide Serve;
      if queue == [] {
        assert queue + [f] == [f];
        assert [f][1..] == [];
      } else {
        assert (queue + [f])[0] == queue[0];
        assert (queue + [f])[1..] == queue[1..] + [f];
        var one := Serve(ss, queue[0]);
        if !one.fault {
          ServeAllSnoc(one.sessions, queue[1..], f);
          var rest := ServeAll(one.sessions, queue[1..]);
          Basics.Regroup(one.replies, rest.replies, Serve(rest.sessions, f).replies);
        }
      }
    }

    /** What a session of this worker can look like, whoever is talking to it. */
    ghost predicate Sane(s: WSession) {
      && 0 < s.ctx <= info.contextSize && |s.pairs| <= s.ctx
      && (forall i :: 0 <= i < |s.pairs| ==> 0 <= s.pairs[i].token < model.nVocab)
      && (s.spec ==> peerMtp && info.speculation && 0 < s.specPos <= |s.pairs| <= s.specPos + VERIFY_MAX)
    }

    ghost predicate AllSane(ss: map<int, WSession>) {
      forall id :: id in ss ==> Sane(ss[id])
    }

    lemma AdvanceSane(ss: map<int, WSession>, id: int, pos: nat, f: Flags, tokens: seq<Token>, rows: seq<Row>)
      requires AllSane(ss) && id in ss && |tokens| == |rows| && tokens != [] && pos + |tokens| <= ss[id].ctx
      requires (f.reset ==> !ss[id].spec && !f.begin) && (f.begin ==> !ss[id].spec && pos != 0)
      requires (ss[id].spec || f.begin) ==> |tokens| == 1
      requires f.begin ==> peerMtp && info.speculation
      ensures AllSane(Advance(ss, id, pos, f, tokens, rows).sessions)
    {
      assert Sane(ss[id]);
      var s0 := if f.reset then ss[id].(pairs := []) else ss[id];
      var s := if f.begin then s0.(spec := true, specPos := pos) else s0;
      var o := Advance(ss, id, pos, f, tokens, rows);
      if !o.fault {
        var ps := s.pairs + Zip(tokens, rows);
        assert o.sessions == ss[id := s.(pairs := ps)];
        assert Sane(s.(pairs := ps));
      }
    }

    lemma ServeSane(ss: map<int, WSession>, f: Frame)
      requires AllSane(ss)
      ensures AllSane(Serve(ss, f).sessions)
    {
      hide Advance;
      var id := if |f.words| >= 1 then f.words[0] else 0;
      if id in ss { assert Sane(ss[id]); }
      if f.kind == KIND_WORK && |f.words| >= 4 && id in ss && WorkShape(ss[id], f.words) && f.Bytes() <= MAX_FRAME && id != 0 {
        var pos, n := f.words[1], f.words[2];
        assert n * (1 + model.nEmbd) == n + n * model.nEmbd;
        AdvanceSane(ss, id, pos, ReadFlags(f.words[3]), f.words[4..4 + n], GetRows(f.words[4 + n..], model.nEmbd, n));
      }
    }

    /** Whatever frames arrive in whatever order, no session passes its context, a
        transaction starts after a token and holds at most eight, and every token
        evaluated is one of the vocabulary. */
    lemma {:induction false} ServeAllSane(ss: map<int, WSession>, queue: seq<Frame>)
      requires AllSane(ss)
      ensures AllSane(ServeAll(ss, queue).sessions)
      decreases |queue|
    {
      hide Serve, AllSane;
      if queue != [] {
        ServeSane(ss, queue[0]);
        if !Serve(ss, queue[0]).fault { ServeAllSane(Serve(ss, queue[0]).sessions, queue[1..]); }
      }
    }

    /** A frame is refused, and every session with it, or it touches only the session it
        names: one that is new, goes, keeps a beginning of its tokens, or grows; and the
        reply says where that one stands. */
    lemma ServeTouches(ss: map<int, WSession>, f: Frame)
      ensures var o := Serve(ss, f);
        if o.fault then o == Served(map[], [Frame(KIND_ERROR, [])], true)
        else
          && |f.words| > 0 && f.words[0] != 0 && |o.replies| == 1 && |o.replies[0].words| >= 2
          && o.replies[0].kind == KIND_RESULT && o.replies[0].words[0] == f.words[0]
          && var id, at := f.words[0], o.replies[0].words[1];
             && (forall k :: k != id ==> (k in o.sessions <==> k in ss) && (k in ss ==> o.sessions[k] == ss[k]))
             && (|| (f.kind == KIND_CREATE && id !in ss && id in o.sessions && o.sessions[id].pairs == [] && at == 0)
                 || (f.kind == KIND_FREE && id in ss && id !in o.sessions && at == 0)
                 || (f.kind == KIND_COMMIT && id in ss && id in o.sessions && ss[id].spec && !o.sessions[id].spec
                     && o.sessions[id].pairs <= ss[id].pairs && at == |o.sessions[id].pairs|)
                 || (f.kind == KIND_WORK && |f.words| >= 4 && id in ss && id in o.sessions && at == |o.sessions[id].pairs|
                     && at == f.words[1] + f.words[2] && (f.words[1] == 0 || ss[id].pairs <= o.sessions[id].pairs)))
    {
      hide WorkShape, Advance;
      var id := if |f.words| >= 1 then f.words[0] else 0;
      if f.kind == KIND_WORK && |f.words| >= 4 && id in ss { WorkTouches(ss, id, f.words); }
    }

    lemma WorkTouches(ss: map<int, WSession>, id: int, words: seq<int>)
      requires |words| >= 4 && id in ss
      ensures var o := Work(ss, id, words);
        if o.fault then o == REFUSED
        else
          && |o.replies| == 1 && o.replies[0].kind == KIND_RESULT && |o.replies[0].words| >= 2
          && o.replies[0].words[0] == id && o.replies[0].words[1] == words[1] + words[2]
          && id in o.sessions && |o.sessions[id].pairs| == words[1] + words[2] && o.sessions == ss[id := o.sessions[id]]
          && (words[1] == 0 || ss[id].pairs <= o.sessions[id].pairs)
    {
      if WorkShape(ss[id], words) {
        var pos, n := words[1], words[2];
        assert n * (1 + model.nEmbd) == n + n * model.nEmbd;
        var f := ReadFlags(words[3]);
        AdvanceTouches(ss, id, pos, f, words[4..4 + n], GetRows(words[4 + n..], model.nEmbd, n));
      }
    }

    lemma AdvanceTouches(ss: map<int, WSession>, id: int, pos: nat, f: Flags, tokens: seq<Token>, rows: seq<Row>)
      requires id in ss && |tokens| == |rows|
      ensures var o := Advance(ss, id, pos, f, tokens, rows);
        if o.fault then o == REFUSED
        else
          && |o.replies| == 1 && o.replies[0].kind == KIND_RESULT && |o.replies[0].words| >= 2
          && o.replies[0].words[0] == id && o.replies[0].words[1] == pos + |tokens|
          && id in o.sessions && |o.sessions[id].pairs| == pos + |tokens| && o.sessions == ss[id := o.sessions[id]]
          && (pos == 0 || f.reset || ss[id].pairs <= o.sessions[id].pairs)
    {
    }

    /** Sessions do not interfere: frames that name others change nothing about one. */
    lemma {:induction false} OthersUntouched(ss: map<int, WSession>, queue: seq<Frame>, id: int)
      requires forall i :: 0 <= i < |queue| ==> |queue[i].words| > 0 ==> queue[i].words[0] != id
      ensures var o := ServeAll(ss, queue);
        !o.fault ==> (id in o.sessions <==> id in ss) && (id in ss ==> o.sessions[id] == ss[id])
      decreases |queue|
    {
      hide Serve;
      if queue != [] {
        ServeTouches(ss, queue[0]);
        if !Serve(ss, queue[0]).fault { OthersUntouched(Serve(ss, queue[0]).sessions, queue[1..], id); }
      }
    }

    lemma {:induction false} OneReplyEach(ss: map<int, WSession>, queue: seq<Frame>)
      ensures !ServeAll(ss, queue).fault ==> |ServeAll(ss, queue).replies| == |queue|
      decreases |queue|
    {
      if queue != [] {
        OneReplyEach(Serve(ss, queue[0]).sessions, queue[1..]);
      }
    }
  }

  /** One connection together with the worker loop at its far end.  The worker
      loop's session list is local to the connection.  Frames queue in both
      directions; the worker takes its turns at any moment between the
      coordinator's calls, and the connection may break at any of them. */
  class Link {
    const worker: Worker
    var alive: bool
    var inbox: seq<Frame>
    var outbox: seq<Frame>
    var sessions: map<int, WSession>
    var fault: bool
    /** How often the connection has broken by itself. */
    ghost var trouble: nat

    constructor (worker: Worker)
      ensures this.worker == worker && inbox == [] && outbox == [] && sessions == map[] && !fault
      ensures Future() == Served(map[], [], false) && alive && trouble == 0
    {
      this.worker := worker;
      inbox, outbox, sessions, fault := [], [], map[], false;
      alive, trouble := true, 0;
    }

    /** What the worker's sessions and the unread replies will be once it has
        served everything already sent. */
    ghost function Future(): Served
      reads this
    {
      if fault then Served(sessions, outbox, true)
      else
        var o := worker.ServeAll(sessions, inbox);
        Served(o.sessions, outbox + o.replies, o.fault)
    }

    /** No frame sent so far has failed or will fail a worker check. */
    ghost predicate Clean()
      reads this
    {
      !Future().fault
    }

    /** One iteration of the worker loop. */
    method Turn()
      requires inbox != [] && !fault
      modifies this
      ensures Future() == old(Future())
      ensures |inbox| < |old(inbox)|
      ensures alive == old(alive) && trouble == old(trouble)
    {
      var f := inbox[0];
      var o := worker.Serve(sessions, f);
      ghost var rest := worker.ServeAll(o.sessions, inbox[1..]);
      Basics.Regroup(outbox, o.replies, rest.replies);
      inbox := inbox[1..];
      sessions := o.sessions;
      outbox := outbox + o.replies;
      fault := o.fault;
    }

    /** The worker runs for a while, or the connection breaks: because of the network,
        or because the worker has refused the coordinator's hello and hung up. */
    method Elapse()
      modifies this
      ensures Future() == old(Future())
      ensures trouble >= old(trouble) && (alive ==> old(alive)) && (!alive && old(alive) ==> trouble > old(trouble))
    {
      while inbox != [] && !fault
        invariant Future() == old(Future())
        invariant alive == old(alive) && trouble == old(trouble)
        decreases |inbox|
      {
        if * { break; }
        Turn();
      }
      if * { alive, trouble := false, trouble + 1; }
    }

    /** The coordinator breaks the connection itself; a transfer in progress fails. */
    method Shutdown()
      modifies this
      ensures Future() == old(Future()) && !alive && trouble == old(trouble)
    {
      alive := false;
    }

    /** Queue a frame for the worker.  On failure it is not delivered whole. */
    method Send(f: Frame) returns (ok: bool)
      modifies this
      ensures ok ==> Future() == worker.Extend(old(Future()), f) && alive
      ensures !ok ==> Future() == old(Future()) && !alive
      ensures trouble >= old(trouble) && (!ok && old(alive) ==> trouble > old(trouble))
    {
      hide Worker.Serve, Worker.ServeAll;
      Elapse();
      if !alive { return false; }
      if !fault {
        worker.ServeAllSnoc(sessions, inbox, f);
        ghost var o := worker.ServeAll(sessions, inbox);
        ghost var one := worker.Serve(o.sessions, f);
        Basics.Regroup(outbox, o.replies, one.replies);
      }
      inbox := inbox + [f];
      return true;
    }

    /** Wait for the worker's next frame; the wait ends with an error when the
        connection breaks or nothing arrives. */
    method Receive() returns (ok: bool, f: Frame)
      modifies this
      ensures ok ==> old(Future()).replies != [] && f == old(Future()).replies[0]
                     && Future() == old(Future()).(replies := old(Future()).replies[1..]) && alive
      ensures !ok ==> Future() == old(Future()) && !alive
      ensures trouble >= old(trouble)
      ensures !ok && old(alive) && old(Future()).replies != [] ==> trouble > old(trouble)
    {
      f := Frame(KIND_ERROR, []);
      Elapse();
      while outbox == [] && inbox != [] && !fault
        invariant Future() == old(Future()) && trouble >= old(trouble) && (alive ==> old(alive))
        invariant !alive && old(alive) ==> trouble > old(trouble)
        decreases |inbox|
      {
        Turn();
      }
      if !alive || outbox == [] {
        alive := false;
        return false, f;
      }
      f := outbox[0];
      ghost var all := Future().replies;
      outbox := outbox[1..];
      assert Future().replies == all[1..];
      return true, f;
    }

    /** With no reply outstanding the worker is idle: the future is now. */
    lemma Idle()
      requires Clean() && Future().replies == []
      ensures inbox == [] && outbox == [] && Future().sessions == sessions
    {
      worker.OneReplyEach(sessions, inbox);
    }
  }
}
