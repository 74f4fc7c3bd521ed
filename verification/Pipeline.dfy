/** The coordinator engine: connecting, sessions, and the session operations. */
module Pipeline {
  import opened Stages
  import opened Wire
  import opened Coordinator
  import opened Span
  import opened Speculation
  import Prefill

  /** One coordinator session with its prefix stage and published checkpoint.
      `generation` names the connection on which the worker knows it. */
  class Session {
    const id: nat
    const ctx: nat
    const stage: Stage
    var generation: nat
    var checkpoint: seq<Token>
    var valid: bool
    var logits: Row

    constructor (id: nat, ctx: nat, stage: Stage)
      ensures this.id == id && this.ctx == ctx && this.stage == stage
      ensures generation == 0 && checkpoint == [] && !valid
    {
      this.id, this.ctx, this.stage := id, ctx, stage;
      generation, checkpoint, valid, logits := 0, [], false, [];
    }
  }

  /** A worker that consumed exactly `hist` in a session with no open transaction. */
  ghost predicate Holds(m: Model, ws: WSession, ctx: nat, hist: seq<Token>) {
    ws.ctx == ctx && !ws.spec && (hist != [] ==> ws.pairs == Annotate(m, hist))
  }

  class Engine {
    const model: Model
    const info: Info
    const chunk: nat
    const window: nat
    var link: Link?
    var peer: Info
    var generation: nat
    var nextId: nat
    ghost var sessions: set<Session>
    ghost var links: set<Link>
    /** How often something out of the model's sight has gone wrong: a connection or
        a stage failed, the caller cancelled, or a worker's hello did not fit. */
    ghost var trouble: nat

    function Setup(): Setup
      reads this`peer
    { Coordinator.Setup(model, info, peer, chunk, window) }

    ghost predicate Fixed() {
      && model.WellFormed() && info.nEmbd == model.nEmbd && info.prefillCap > 0 && window <= 64
      && 16 + (1 + model.nEmbd) * 4 <= MAX_FRAME
    }

    /** Sessions have their own ids and stages, and no stage is inside a transaction. */
    ghost predicate Sessions()
      reads this`nextId, this`generation, this`sessions, sessions, set s | s in sessions :: s.stage
    {
      && nextId > 0
      && (forall s :: s in sessions ==>
            && 0 < s.id < nextId && s.generation <= generation && 0 < s.ctx
            && |s.checkpoint| <= s.ctx && InVocab(model, s.checkpoint)
            && s.stage.model == model && s.stage.ctx == s.ctx && s.stage.cap == info.prefillCap && !s.stage.spec)
      && (forall s, t :: s in sessions && t in sessions && s != t ==> s.id != t.id && s.stage != t.stage)
    }

    /** The current connection joins the agreed pair of stages, is idle, and no
        connection ever made has had a frame fail a worker check. */
    ghost predicate Connected()
      reads this`link, this`links, this`peer, this`generation, links
    {
      && (forall l :: l in links ==> !l.Future().fault)
      && (link != null ==>
            && generation > 0 && link in links && HelloAccepts(true, info, peer) && ServedBy(Setup(), link.worker)
            && link.Future().replies == [] && link.alive)
    }

    /** The worker holds session `s` with the coordinator's token history; an
        empty checkpoint is rebuilt from position 0 and promises nothing. */
    ghost predicate InStep(s: Session)
      requires link != null
      reads this`link, link, s, s.stage
    {
      && s.id in link.Future().sessions
      && Holds(model, link.Future().sessions[s.id], s.ctx, s.checkpoint)
      && (s.checkpoint != [] ==>
            && s.stage.hist == s.checkpoint && s.logits == FinalRow(model, s.checkpoint)
            && (info.mtp ==> s.stage.caught == CaughtUp(model, s.checkpoint)))
    }

    /** The recovery invariant. */
    ghost predicate Coherent()
      reads this`link, this`links, this`peer, this`generation, this`nextId, this`sessions
      reads links, link, sessions, set s | s in sessions :: s.stage
    {
      && Fixed() && Sessions() && Connected()
      && (link != null ==>
            && (forall s :: s in sessions && s.generation == generation ==> InStep(s))
            && (forall id :: id in link.Future().sessions ==> Known(id)))
    }

    /** Some session of this connection has the id. */
    ghost predicate Known(id: int)
      reads this`sessions, this`generation, sessions
    {
      exists s :: s in sessions && s.generation == generation && s.id == id
    }

    constructor (model: Model, info: Info, chunk: nat, window: nat)
      requires model.WellFormed() && info.nEmbd == model.nEmbd && info.prefillCap > 0 && window <= 64
      requires 16 + (1 + model.nEmbd) * 4 <= MAX_FRAME
      ensures Coherent() && sessions == {} && link == null
    {
      this.model, this.info, this.chunk, this.window := model, info, chunk, window;
      link, generation, nextId := null, 0, 1;
      peer := info;
      sessions, links, trouble := {}, {}, 0;
    }

    /** Drop the connection; the worker forgets every session of it. */
    method Disconnect()
      requires Droppable()
      modifies this`link
      ensures Coherent() && link == null
    {
      link := null;
    }

    method CreateSession(ctx: nat) returns (s: Session)
      requires Coherent() && ctx > 0
      modifies this`nextId, this`sessions
      ensures Coherent() && fresh(s) && fresh(s.stage) && sessions == old(sessions) + {s}
      ensures s.ctx == ctx && s.checkpoint == [] && s.id !in (set t | t in old(sessions) :: t.id)
    {
      hide Link.Future, Holds, Annotate, FinalRow, CaughtUp, InVocab, Connected, Sessions, Known;
      Ids();
      var stage := new Stage(model, ctx, info.prefillCap);
      s := new Session(nextId, ctx, stage);
      nextId := nextId + 1;
      sessions := sessions + {s};
      Joins(s);
    }

    lemma Ids()
      requires Coherent()
      ensures nextId > 0 && forall s :: s in sessions ==> s.id < nextId
      ensures link != null ==> generation > 0
    {
      hide Link.Future, InVocab, HelloAccepts, ServedBy;
    }

    /** A new session is nobody's yet. */
    twostate lemma Joins(new s: Session)
      requires old(Sessions()) && old(Connected()) && unchanged(this`link, this`peer, this`generation, this`links)
      requires fresh(s) && fresh(s.stage) && sessions == old(sessions) + {s}
      requires nextId == old(nextId) + 1 && s.id == old(nextId) && s.generation == 0 && 0 < s.ctx && s.checkpoint == []
      requires s.stage.model == model && s.stage.ctx == s.ctx && s.stage.cap == info.prefillCap && !s.stage.spec
      requires forall t :: t in old(sessions) ==> unchanged(t) && unchanged(t.stage)
      requires forall l :: l in links ==> unchanged(l)
      ensures Sessions() && Connected()
      ensures forall id :: old(Known(id)) ==> Known(id)
    {
      hide InVocab, Link.Future, HelloAccepts, ServedBy;
      NoTokens(model);
    }

    /** Connect if there is no connection: accept workers until one's hello fits. */
    method Route() returns (ok: bool)
      requires Coherent()
      modifies this`link, this`peer, this`generation, this`links, this`trouble
      ensures Coherent()
      ensures trouble >= old(trouble) && (!ok ==> trouble > old(trouble))
      ensures ok ==> link != null
      ensures old(link) != null ==> ok && link == old(link) && peer == old(peer) && generation == old(generation)
      ensures link != old(link) ==> fresh(link) && generation == old(generation) + 1
    {
      hide *;
      if link != null { return true; }
      var announced: Info := *;
      var interrupted := *;
      if interrupted || !HelloAccepts(true, info, announced) {
        trouble := trouble + 1;
        return false;
      }
      Adopt(announced);
      return true;
    }

    /** A new connection is a new generation, which no session belongs to yet. */
    method Adopt(announced: Info)
      requires Coherent() && link == null && HelloAccepts(true, info, announced)
      modifies this`link, this`peer, this`generation, this`links
      ensures Coherent() && link != null && fresh(link) && generation == old(generation) + 1
    {
      hide Link.Future, Holds, FinalRow, Annotate, CaughtUp, InVocab, Sessions;
      var l := new Link(Worker(model, announced, info.mtp));
      link, peer, generation := l, announced, generation + 1;
      links := links + {l};
      NextGeneration();
    }

    twostate lemma NextGeneration()
      requires old(Sessions()) && unchanged(this`sessions, this`nextId) && generation > old(generation)
      requires forall s :: s in sessions ==> unchanged(s) && unchanged(s.stage)
      ensures Sessions() && forall s :: s in sessions ==> s.generation != generation
    {
      hide InVocab;
    }

    /** Coherent for every session but `s`, which the worker knows and which has
        no open transaction. */
    ghost predicate CoherentBut(s: Session)
      reads this`link, this`links, this`peer, this`generation, this`nextId, this`sessions
      reads links, link, sessions, set s | s in sessions :: s.stage
    {
      && Fixed() && Sessions() && Connected() && s in sessions && link != null && s.generation == generation
      && var f := link.Future();
      && (forall t :: t in sessions && t != s && t.generation == generation ==> InStep(t))
      && (forall id :: id in f.sessions ==> Known(id))
      && s.id in f.sessions && f.sessions[s.id].ctx == s.ctx && !f.sessions[s.id].spec
    }

    /** All connections are clean, so this one may be dropped. */
    ghost predicate Droppable()
      reads this`links, this`generation, this`nextId, this`sessions, links, sessions, set s | s in sessions :: s.stage
    {
      Fixed() && Sessions() && forall l :: l in links ==> !l.Future().fault
    }

    /** Announce the session to the worker of this connection. */
    method Announce(s: Session) returns (ok: bool)
      requires Coherent() && s in sessions && link != null && s.generation != generation && s.ctx <= peer.contextSize
      modifies link, s`generation, this`trouble
      ensures Droppable()
      ensures trouble >= old(trouble) && (!ok ==> trouble > old(trouble))
      ensures ok ==> CoherentBut(s) && link.Future().sessions[s.id] == WSession(s.ctx, [], false, 0)
    {
      hide Link.Future, Holds, FinalRow, CaughtUp, Annotate;
      ok := CreateRemote(link, Setup(), s.id, s.ctx);
      if !ok {
        trouble := trouble + 1; // the connection broke
        return;
      }
      s.generation := generation;
    }

    /** The worker and the prefix stage stand exactly after `hist`. */
    ghost predicate After(s: Session, hist: seq<Token>)
      requires link != null
      reads this`link, link, s, s.stage
    {
      hist != [] ==>
        && s.id in link.Future().sessions && link.Future().sessions[s.id].pairs == Annotate(model, hist)
        && s.stage.hist == hist && (info.mtp ==> s.stage.caught == CaughtUp(model, hist))
    }

    /** Make sure the worker of the current connection knows the session. */
    method SessionReady(s: Session) returns (ok: bool)
      requires Coherent() && s in sessions
      modifies this`link, this`peer, this`generation, this`links, this`trouble, link, s`generation
      ensures Droppable()
      ensures trouble >= old(trouble) && (!ok ==> trouble > old(trouble) || s.ctx > peer.contextSize)
      ensures var replay := old(link) == null || old(s.generation) != old(generation);
        && (ok ==> CoherentBut(s) && After(s, if replay then [] else s.checkpoint))
        && (ok && !replay && s.checkpoint != [] ==> s.logits == FinalRow(model, s.checkpoint))
      ensures |s.checkpoint| <= s.ctx
      ensures link == old(link) || fresh(link)
      ensures old(link) != null ==> link == old(link)
    {
      hide Link.Future;
      ok := Route();
      if !ok || s.generation == generation { return; }
      if s.ctx > peer.contextSize { return false; }
      ok := Announce(s);
    }

    /** The worker has taken session `s` on to `hist` and is idle again. */
    ghost predicate Moved(s: Session, before: map<int, WSession>, hist: seq<Token>)
      requires link != null
      reads this`link, link, s, s.stage
    {
      && link.alive && link.Future().replies == [] && !s.stage.spec && s.id in before
      && s.id in link.Future().sessions && link.Future().sessions == before[s.id := link.Future().sessions[s.id]]
      && Holds(model, link.Future().sessions[s.id], before[s.id].ctx, hist) && link.Future().sessions[s.id].pairs == Annotate(model, hist)
      && s.stage.hist == hist && (info.mtp ==> s.stage.caught == CaughtUp(model, hist))
      && s.logits == FinalRow(model, hist)
    }

    /** A span and what it changes. */
    method RunSpan(s: Session, base: seq<Token>, tokens: seq<Token>) returns (ok: bool)
      requires CoherentBut(s) && After(s, base) && tokens != [] && |base| + |tokens| <= s.ctx
      modifies link, s.stage, s`logits, this`trouble
      ensures !link.Future().fault && !s.stage.spec && (base != [] ==> s.stage.resets == old(s.stage.resets))
      ensures ok ==> Moved(s, old(link.Future()).sessions, base + tokens) && InVocab(model, tokens)
      ensures trouble >= old(trouble) && (!ok && InVocab(model, tokens) ==> trouble > old(trouble))
    {
      hide Link.Future, Local, FinalRow, Annotate, CaughtUp, ServedBy, InVocab;
      var sc := Scene(Setup(), s.id, base, tokens, Plain, link.Future());
      SetupValid();
      ghost var linkTrouble, stageTrouble := link.trouble, s.stage.trouble;
      var logits;
      ok, logits := SpanRun(link, s.stage, sc);
      s.logits := logits;
      trouble := trouble + (link.trouble - linkTrouble) + (s.stage.trouble - stageTrouble);
    }

    /** One span with its last row projected. */
    method EvalSpan(s: Session, base: seq<Token>, tokens: seq<Token>) returns (ok: bool)
      requires CoherentBut(s) && After(s, base) && tokens != [] && |base| + |tokens| <= s.ctx
      modifies link, s.stage, s`logits, this`trouble
      ensures Droppable() && (base != [] ==> s.stage.resets == old(s.stage.resets))
      ensures ok ==> CoherentBut(s) && After(s, base + tokens) && s.logits == FinalRow(model, base + tokens)
      ensures ok ==> InVocab(model, tokens)
      ensures trouble >= old(trouble) && (!ok && InVocab(model, tokens) ==> trouble > old(trouble))
    {
      hide Link.Future, FinalRow, Annotate, CaughtUp, ServedBy, InVocab;
      ok := RunSpan(s, base, tokens);
    }

    /** Publish the history both stages stand after as the checkpoint. */
    method Publish(s: Session, hist: seq<Token>)
      requires CoherentBut(s) && After(s, hist) && hist != [] && |hist| <= s.ctx && s.logits == FinalRow(model, hist)
      requires InVocab(model, hist)
      modifies s`checkpoint, s`valid
      ensures Coherent() && link != null && s.generation == generation && InStep(s)
      ensures s.valid && s.checkpoint == hist
    {
      hide Link.Future, FinalRow, Annotate, CaughtUp;
      s.checkpoint, s.valid := hist, true;
    }

    /** q36_dist_session_sync: evaluate what the prompt adds to the checkpoint, or
        all of it from 0 when the connection is new to the session. */
    method DistSync(s: Session, prompt: seq<Token>) returns (ok: bool)
      requires Coherent() && s in sessions && s.checkpoint <= prompt && 0 < |prompt| <= s.ctx
      modifies this`link, this`peer, this`generation, this`links, this`trouble, link, s`generation, s`logits, s.stage
      ensures ok ==> CoherentBut(s) && After(s, prompt) && s.logits == FinalRow(model, prompt)
      ensures ok ==> InVocab(model, prompt)
      ensures old(link != null && s.generation == generation && s.checkpoint != []) ==> s.stage.resets == old(s.stage.resets)
      ensures trouble >= old(trouble)
      ensures !ok && InVocab(model, prompt) ==> trouble > old(trouble) || s.ctx > peer.contextSize
      ensures !ok ==> Coherent() && link == null
      ensures link == null || link == old(link) || fresh(link)
      ensures ok && old(link) != null ==> link == old(link)
    {
      hide *;
      SessionVocab(s);
      var replay := link == null || s.generation != generation;
      var start := if replay then 0 else |s.checkpoint|;
      ok := SessionReady(s);
      assert prompt[..start] == if replay then [] else s.checkpoint;
      assert prompt[..start] + prompt[start..] == prompt;
      assert start == |prompt| ==> prompt[..start] == prompt;
      VocabSplit(model, prompt[..start], prompt[start..]);
      if ok && start < |prompt| { ok := EvalSpan(s, prompt[..start], prompt[start..]); }
      if !ok { Disconnect(); }
    }

    /** q36_session_sync: bring the session to `prompt`, reusing the checkpoint
        when it is valid and a prefix, and rebuilding from 0 otherwise. */
    method Sync(s: Session, prompt: seq<Token>) returns (ok: bool)
      requires Coherent() && s in sessions
      modifies this`link, this`peer, this`generation, this`links, this`trouble, link
      modifies s`generation, s`checkpoint, s`valid, s`logits, s.stage
      ensures Coherent()
      ensures ok ==> link != null && s.generation == generation && InStep(s) && s.valid && s.checkpoint == prompt
      ensures link == null || link == old(link) || fresh(link)
      ensures ok && old(link) != null ==> link == old(link)
      ensures !ok ==> s.checkpoint == [] || s.checkpoint == old(s.checkpoint)
      ensures old(link != null && s.generation == generation && s.valid && s.checkpoint != [] && s.checkpoint <= prompt) ==>
        s.stage.resets == old(s.stage.resets)
      ensures trouble >= old(trouble)
      ensures !ok ==>
        || trouble > old(trouble)
        || prompt == [] || |prompt| >= s.ctx || !InVocab(model, prompt) || s.ctx > peer.contextSize
    {
      hide *;
      if prompt == [] || |prompt| >= s.ctx { return false; }
      if !(s.valid && s.checkpoint <= prompt) { Forget(s); }
      ok := DistSync(s, prompt);
      if ok { Publish(s, prompt); } else { Drop(s); }
    }

    /** A failed operation leaves the checkpoint in place but marks it invalid. */
    method Drop(s: Session)
      requires Coherent() && link == null && s in sessions
      modifies s`valid
      ensures Coherent() && !s.valid
    {
      s.valid := false;
    }

    /** q36_dist_session_eval: rebuild the checkpoint on a new connection, then
        evaluate one token. */
    method DistEval(s: Session, token: Token) returns (ok: bool)
      requires Coherent() && s in sessions && |s.checkpoint| < s.ctx
      modifies this`link, this`peer, this`generation, this`links, this`trouble, link, s`generation, s`logits, s.stage
      ensures ok ==> InVocab(model, s.checkpoint + [token])
      ensures old(link != null && s.generation == generation && s.checkpoint != []) ==> s.stage.resets == old(s.stage.resets)
      ensures trouble >= old(trouble)
      ensures !ok && 0 <= token < model.nVocab ==> trouble > old(trouble) || s.ctx > peer.contextSize
      ensures ok ==> CoherentBut(s) && After(s, s.checkpoint + [token]) && s.logits == FinalRow(model, s.checkpoint + [token])
      ensures !ok ==> Coherent() && link == null
      ensures link == null || link == old(link) || fresh(link)
      ensures ok && old(link) != null ==> link == old(link)
    {
      hide *;
      SessionVocab(s);
      var replay := link == null || s.generation != generation;
      ok := SessionReady(s);
      assert [] + s.checkpoint == s.checkpoint;
      OneToken(model, token);
      VocabSplit(model, s.checkpoint, [token]);
      if ok && replay && s.checkpoint != [] { ok := EvalSpan(s, [], s.checkpoint); }
      assert s.checkpoint == [] ==> s.checkpoint == if replay then [] else s.checkpoint;
      if ok { ok := EvalSpan(s, s.checkpoint, [token]); }
      if !ok { Disconnect(); }
    }

    /** q36_session_eval_internal: extend the checkpoint by one token. */
    method Eval(s: Session, token: Token) returns (ok: bool)
      requires Coherent() && s in sessions
      modifies this`link, this`peer, this`generation, this`links, this`trouble, link
      modifies s`generation, s`checkpoint, s`valid, s`logits, s.stage
      ensures Coherent()
      ensures ok ==> link != null && s.generation == generation && InStep(s) && s.valid
                     && s.checkpoint == old(s.checkpoint) + [token]
      ensures !ok ==> s.checkpoint == old(s.checkpoint)
      ensures old(link != null && s.generation == generation && s.checkpoint != []) ==> s.stage.resets == old(s.stage.resets)
      ensures trouble >= old(trouble)
      ensures !ok ==>
        || trouble > old(trouble)
        || |s.checkpoint| >= s.ctx || !(0 <= token < model.nVocab) || s.ctx > peer.contextSize
      ensures link == null || link == old(link) || fresh(link)
      ensures ok && old(link) != null ==> link == old(link)
    {
      hide *;
      if |s.checkpoint| >= s.ctx { return false; }
      ok := DistEval(s, token);
      if ok { Publish(s, s.checkpoint + [token]); } else { Drop(s); }
    }

    /** Forget the checkpoint and reset the prefix stage. */
    method Forget(s: Session)
      requires Coherent() && s in sessions
      modifies s`checkpoint, s`valid, s.stage
      ensures Coherent() && s.checkpoint == [] && !s.valid
    {
      hide Link.Future, FinalRow, Annotate, CaughtUp, Holds, ServedBy, InVocab, Sessions, Connected, HelloAccepts;
      if link != null && s.generation == generation { HoldsNone(model, link.Future().sessions[s.id], s.ctx, s.checkpoint); }
      StagesApart(s);
      s.stage.Reset();
      s.checkpoint, s.valid := [], false;
      Forgotten(s);
    }

    lemma StagesApart(s: Session)
      requires Sessions() && s in sessions
      ensures forall t :: t in sessions && t != s ==> t.stage != s.stage
    {
      hide InVocab;
    }

    twostate lemma Forgotten(s: Session)
      requires old(Sessions()) && old(Connected()) && s in sessions && unchanged(this)
      requires forall t :: t in sessions && t != s ==> unchanged(t) && unchanged(t.stage)
      requires forall l :: l in links ==> unchanged(l)
      requires unchanged(s`generation) && s.checkpoint == [] && !s.stage.spec
      ensures Sessions() && Connected()
    {
      hide InVocab, Link.Future, HelloAccepts, ServedBy;
      NoTokens(model);
    }

    /** All is well but for a transaction that session `s` may have left open. */
    ghost predicate Orphaned(s: Session)
      reads this`links, this`generation, this`nextId, this`sessions, links, sessions, set s | s in sessions :: s.stage
    {
      && Fixed() && nextId > 0 && s in sessions
      && (forall t :: t in sessions ==>
            && 0 < t.id < nextId && t.generation <= generation && 0 < t.ctx && |t.checkpoint| <= t.ctx
            && InVocab(model, t.checkpoint)
            && t.stage.model == model && t.stage.ctx == t.ctx && t.stage.cap == info.prefillCap && (t != s ==> !t.stage.spec))
      && (forall t, u :: t in sessions && u in sessions && t != u ==> t.id != u.id && t.stage != u.stage)
      && (forall l :: l in links ==> !l.Future().fault)
    }

    /** A verification and a commit, and what they change. */
    method RunBlock(s: Session, tokens: seq<Token>, eos: Token, excluded: int) returns (ok: bool, commit: nat)
      requires CoherentBut(s) && After(s, s.checkpoint) && s.checkpoint != []
      requires info.mtp && 0 < |tokens| <= VERIFY_MAX && |s.checkpoint| + |tokens| <= s.ctx
      modifies link, s.stage, s`logits, this`trouble
      ensures !link.Future().fault && s.stage.resets == old(s.stage.resets)
      ensures ok ==> commit <= |tokens| && Moved(s, old(link.Future()).sessions, s.checkpoint + tokens[..commit])
      ensures ok ==> InVocab(model, tokens[..commit]) && commit == SerialLen(model, s.checkpoint, tokens, eos, excluded)
      ensures trouble >= old(trouble)
      ensures !ok && InVocab(model, tokens) && SerialLen(model, s.checkpoint, tokens, eos, excluded) <= info.prefillCap ==>
        trouble > old(trouble)
    {
      hide Link.Future, Local, FinalRow, Annotate, CaughtUp, SerialLen, ServedBy, InVocab;
      var sc := Scene(Setup(), s.id, s.checkpoint, tokens, Verify(eos, excluded), link.Future());
      SetupValid();
      ghost var linkTrouble, stageTrouble := link.trouble, s.stage.trouble;
      var logits;
      ok, commit, logits := VerifyAndCommit(link, s.stage, sc);
      s.logits := logits;
      trouble := trouble + (link.trouble - linkTrouble) + (s.stage.trouble - stageTrouble);
      if ok { CommittedHistories(sc, commit); }
    }

    /** Verify a drafted block on top of the checkpoint, and commit its confirmed
        prefix on both sides. */
    method SpeculateBlock(s: Session, tokens: seq<Token>, eos: Token, excluded: int) returns (ok: bool, commit: nat)
      requires CoherentBut(s) && After(s, s.checkpoint) && s.checkpoint != []
      requires info.mtp && 0 < |tokens| <= VERIFY_MAX && |s.checkpoint| + |tokens| <= s.ctx
      modifies link, s.stage, s`logits, this`trouble
      ensures Orphaned(s) && s.stage.resets == old(s.stage.resets)
      ensures ok ==> commit <= |tokens| && InVocab(model, tokens[..commit])
      ensures trouble >= old(trouble)
      ensures !ok && InVocab(model, tokens) && SerialLen(model, s.checkpoint, tokens, eos, excluded) <= info.prefillCap ==>
        trouble > old(trouble)
      ensures ok ==> commit == SerialLen(model, s.checkpoint, tokens, eos, excluded)
      ensures ok ==> CoherentBut(s) && After(s, s.checkpoint + tokens[..commit])
                     && s.logits == FinalRow(model, s.checkpoint + tokens[..commit])
    {
      hide Link.Future, FinalRow, Annotate, CaughtUp, SerialLen, ServedBy, InVocab;
      ok, commit := RunBlock(s, tokens, eos, excluded);
    }

    /** q36_dist_session_speculate on arguments it accepts. */
    method DistSpeculate(s: Session, tokens: seq<Token>, eos: Token, excluded: int) returns (ok: bool, commit: nat)
      requires Coherent() && s in sessions && s.checkpoint != []
      requires info.mtp && 0 < |tokens| <= VERIFY_MAX && |s.checkpoint| + |tokens| <= s.ctx
      modifies this`link, this`peer, this`generation, this`links, this`trouble, link, s`generation, s`logits, s.stage
      ensures ok ==> commit <= |tokens| && InVocab(model, s.checkpoint + tokens[..commit])
      ensures old(link != null && s.generation == generation && s.checkpoint != []) ==> s.stage.resets == old(s.stage.resets)
      ensures trouble >= old(trouble)
      ensures !ok ==>
        || trouble > old(trouble)
        || !InVocab(model, tokens) || s.ctx > peer.contextSize
        || SerialLen(model, s.checkpoint, tokens, eos, excluded) > info.prefillCap
      ensures ok ==> commit == SerialLen(model, s.checkpoint, tokens, eos, excluded)
      ensures ok ==> CoherentBut(s) && After(s, s.checkpoint + tokens[..commit])
                     && s.logits == FinalRow(model, s.checkpoint + tokens[..commit])
      ensures !ok ==> Orphaned(s) && link == null
      ensures link == null || link == old(link) || fresh(link)
      ensures ok && old(link) != null ==> link == old(link)
    {
      hide *;
      commit := 0;
      SessionVocab(s);
      var replay := link == null || s.generation != generation;
      ok := SessionReady(s);
      assert [] + s.checkpoint == s.checkpoint;
      if ok && replay { ok := EvalSpan(s, [], s.checkpoint); }
      if ok { ok, commit := SpeculateBlock(s, tokens, eos, excluded); } else { Orphan(s); }
      if ok { VocabSplit(model, s.checkpoint, tokens[..commit]); }
      if !ok { Hangup(s); }
    }

    lemma Orphan(s: Session)
      requires Droppable() && s in sessions
      ensures Orphaned(s)
    {
      hide Link.Future;
    }

    method Hangup(s: Session)
      requires Orphaned(s)
      modifies this`link
      ensures Orphaned(s) && link == null
    {
      hide Link.Future;
      link := null;
    }

    /** q36_session_invalidate. */
    method Invalidate(s: Session)
      requires Orphaned(s) && link == null
      modifies s`checkpoint, s`valid, s.stage
      ensures Coherent() && s.checkpoint == [] && !s.valid
    {
      hide Link.Future;
      s.stage.Reset();
      s.checkpoint, s.valid := [], false;
    }

    /** q36_session_verify_pipeline: returns how many drafted tokens joined the
        checkpoint, or -1. */
    method Speculate(s: Session, tokens: seq<Token>, eos: Token, excluded: int) returns (n: int)
      requires Coherent() && s in sessions
      modifies this`link, this`peer, this`generation, this`links, this`trouble, link
      modifies s`generation, s`checkpoint, s`valid, s`logits, s.stage
      ensures Coherent()
      ensures n == -1 || (tokens != [] && n == SerialLen(model, old(s.checkpoint), tokens, eos, excluded))
      ensures n != -1 ==> link != null && s.generation == generation && InStep(s) && s.valid
                          && s.checkpoint == old(s.checkpoint) + tokens[..n]
      ensures n == -1 ==> s.checkpoint == [] || s.checkpoint == old(s.checkpoint)
      ensures n != -1 && old(link != null && s.generation == generation) ==> s.stage.resets == old(s.stage.resets)
      ensures trouble >= old(trouble)
      ensures n == -1 ==>
        || trouble > old(trouble)
        || !old(s.valid) || !info.mtp || old(s.checkpoint) == [] || tokens == [] || |tokens| > VERIFY_MAX
        || |old(s.checkpoint)| + |tokens| > s.ctx || !InVocab(model, tokens) || s.ctx > peer.contextSize
        || SerialLen(model, old(s.checkpoint), tokens, eos, excluded) > info.prefillCap
      ensures link == null || link == old(link) || fresh(link)
      ensures n != -1 && old(link) != null ==> link == old(link)
    {
      hide *;
      if !s.valid { return -1; }
      if !info.mtp || s.checkpoint == [] || tokens == [] || |tokens| > VERIFY_MAX
         || |s.checkpoint| > s.ctx || |tokens| > s.ctx - |s.checkpoint| {
        Forget(s);
        return -1;
      }
      var ok, commit := DistSpeculate(s, tokens, eos, excluded);
      if !ok {
        Invalidate(s);
        return -1;
      }
      Publish(s, s.checkpoint + tokens[..commit]);
      return commit;
    }

    method Release(s: Session)
      requires Coherent() && s in sessions && link != null && s.generation == generation
      modifies this`link, this`sessions, this`trouble, link
      ensures Coherent() && sessions == old(sessions) - {s}
      ensures link == null || link == old(link)
      ensures trouble >= old(trouble) && (link == null ==> trouble > old(trouble))
    {
      hide Link.Future, Holds, FinalRow, CaughtUp, Annotate, InVocab, Sessions, HelloAccepts, ServedBy;
      Numbered(s);
      var ok := FreeRemote(link, Setup(), s.id);
      if !ok { link, trouble := null, trouble + 1; }
      sessions := sessions - {s};
      Leaves(s);
    }

    lemma Numbered(s: Session)
      requires Sessions() && s in sessions
      ensures s.id > 0 && forall t :: t in sessions && t != s ==> t.id != s.id
    {
      hide InVocab;
    }

    twostate lemma Leaves(s: Session)
      requires old(Sessions()) && sessions == old(sessions) - {s} && unchanged(this`generation, this`nextId)
      requires forall t :: t in sessions ==> unchanged(t) && unchanged(t.stage)
      ensures Sessions()
    {
      hide InVocab;
    }

    /** q36_dist_session_free: tell the worker of this connection, then drop the
        session. */
    method Free(s: Session)
      requires Coherent() && s in sessions
      modifies this`link, this`sessions, this`trouble, link
      ensures Coherent() && sessions == old(sessions) - {s}
      ensures link == null || link == old(link)
      ensures trouble >= old(trouble) && (old(link) != null && link == null ==> trouble > old(trouble))
    {
      if link != null && s.generation == generation {
        Release(s);
      } else {
        sessions := sessions - {s};
      }
    }

    /** Between operations the worker is idle, and for every session of this
        connection it really holds the session with the coordinator's tokens. */
    lemma AtRest(s: Session)
      requires Coherent() && link != null && s in sessions && s.generation == generation
      ensures link.inbox == [] && link.outbox == [] && !link.fault
      ensures s.id in link.sessions && Holds(model, link.sessions[s.id], s.ctx, s.checkpoint)
    {
      link.Idle();
    }

    /** Checkpoints hold only tokens of the vocabulary. */
    lemma SessionVocab(s: Session)
      requires Coherent() && s in sessions
      ensures InVocab(model, s.checkpoint)
    {
      hide Link.Future;
    }

    lemma SetupValid()
      requires Fixed() && Connected() && link != null
      ensures Setup().Valid()
    {
    }
  }

  /** Any run: operations in any order on any sessions, each of which may meet a
      broken connection at any step.  Coherence holds after every one of them. */
  method AnyRun(model: Model, info: Info, chunk: nat, window: nat, steps: nat) returns (e: Engine)
    requires model.WellFormed() && info.nEmbd == model.nEmbd && info.prefillCap > 0 && window <= 64
    requires 16 + (1 + model.nEmbd) * 4 <= MAX_FRAME
    ensures fresh(e) && e.Coherent()
  {
    hide *;
    e := new Engine(model, info, chunk, window);
    var pool: seq<Session> := [];
    for i := 0 to steps
      invariant fresh(e) && e.Coherent() && (e.link == null || fresh(e.link))
      invariant forall k :: 0 <= k < |pool| ==> pool[k] in e.sessions && fresh(pool[k]) && fresh(pool[k].stage)
      invariant forall k, l :: 0 <= k < l < |pool| ==> pool[k] != pool[l]
    {
      var k: int := *;
      var operation: int := *;
      var ctx: int := *;
      if !(0 <= k < |pool|) {
        if ctx > 0 {
          var s := e.CreateSession(ctx);
          pool := pool + [s];
        }
      } else if operation == 0 {
        e.Free(pool[k]);
        pool := pool[..k] + pool[k + 1..];
      } else {
        AnyOperation(e, pool[k], operation);
      }
    }
  }

  method AnyOperation(e: Engine, s: Session, operation: int)
    requires e.Coherent() && s in e.sessions
    modifies e`link, e`peer, e`generation, e`links, e`trouble, e.link
    modifies s`generation, s`checkpoint, s`valid, s`logits, s.stage
    ensures e.Coherent() && (e.link == null || e.link == old(e.link) || fresh(e.link))
  {
    hide *;
    if operation == 1 {
      var prompt: seq<Token> := *;
      var ok := e.Sync(s, prompt);
    } else if operation == 2 {
      var token: Token := *;
      var ok := e.Eval(s, token);
    } else {
      var tokens: seq<Token>, eos: Token, excluded: int := *, *, *;
      var n := e.Speculate(s, tokens, eos, excluded);
    }
  }

  lemma HoldsNone(m: Model, ws: WSession, ctx: nat, hist: seq<Token>)
    requires Holds(m, ws, ctx, hist)
    ensures Holds(m, ws, ctx, [])
  {
  }

  lemma NoTokens(m: Model)
    ensures InVocab(m, [])
  {
  }

  lemma VocabSplit(m: Model, a: seq<Token>, b: seq<Token>)
    ensures InVocab(m, a + b) <==> InVocab(m, a) && InVocab(m, b)
  {
    if InVocab(m, a + b) {
      forall i | 0 <= i < |a| ensures 0 <= a[i] < m.nVocab { assert (a + b)[i] == a[i]; }
      forall i | 0 <= i < |b| ensures 0 <= b[i] < m.nVocab { assert (a + b)[|a| + i] == b[i]; }
    }
  }

  lemma OneToken(m: Model, t: Token)
    ensures InVocab(m, [t]) <==> 0 <= t < m.nVocab
  {
    assert [t][0] == t;
  }

  /** A span with its last row projected, on whichever path suits the sizes. */
  method PlainSpan(link: Link, st: Stage, sc: Scene) returns (ok: bool, logits: Row)
    requires sc.Ready() && sc.mode.Plain? && ServedBy(sc.su, link.worker) && sc.start == link.Future()
    requires st.model == sc.su.model && (sc.base != [] ==> st.hist == sc.base) && !st.spec
    modifies link, st
    ensures !link.Future().fault && !st.spec && (sc.base != [] ==> st.resets == old(st.resets))
    ensures ok ==> Done(sc, link.Future(), |sc.tokens|)
    ensures ok ==> logits == FinalRow(sc.su.model, sc.All()) == st.projected
    ensures ok ==> Local(sc, st.hist, st.caught, old(st.caught), |sc.tokens|, |sc.tokens|)
    ensures ok ==> InVocab(sc.su.model, sc.tokens)
    ensures link.trouble >= old(link.trouble) && st.trouble >= old(st.trouble) && (ok && old(link.alive) ==> link.alive)
    ensures !ok && old(link.alive) && Feasible(sc, st.ctx, st.cap, old(st.specPos)) ==>
      link.trouble > old(link.trouble) || st.trouble > old(st.trouble)
  {
    hide Link.Future, Local, FinalRow, Annotate, InVocab;
    assert sc.tokens[..|sc.tokens|] == sc.tokens;
    var cap := sc.su.info.prefillCap;
    if |sc.tokens| > cap && cap > sc.su.WireCap() {
      ok, logits := Prefill.PrefillSpan(link, st, sc, cap);
    } else {
      var input, target, tops, sent, stopped := new Row[0], new Row[0], new Token[0], 0, false;
      ghost var k;
      ok, sent, logits, k, stopped := SpanBody(link, st, sc, input, target, tops);
    }
  }

  /** The same with what it leaves behind spelled out. */
  method SpanRun(link: Link, st: Stage, sc: Scene) returns (ok: bool, logits: Row)
    requires sc.Ready() && sc.mode.Plain? && ServedBy(sc.su, link.worker) && sc.start == link.Future()
    requires st.model == sc.su.model && (sc.base != [] ==> st.hist == sc.base) && !st.spec
    requires sc.base != [] && sc.su.info.mtp ==> st.caught == CaughtUp(sc.su.model, sc.base)
    modifies link, st
    ensures !link.Future().fault && !st.spec && (sc.base != [] ==> st.resets == old(st.resets))
    ensures ok ==> st.hist == sc.base + sc.tokens && logits == FinalRow(sc.su.model, sc.base + sc.tokens)
    ensures ok && sc.su.info.mtp ==> st.caught == CaughtUp(sc.su.model, sc.base + sc.tokens)
    ensures ok ==> link.Future().replies == []
                   && link.Future().sessions == sc.start.sessions[sc.id := sc.SessionAt(|sc.tokens|)]
    ensures ok ==> InVocab(sc.su.model, sc.tokens)
    ensures link.trouble >= old(link.trouble) && st.trouble >= old(st.trouble) && (ok && old(link.alive) ==> link.alive)
    ensures !ok && old(link.alive) && |sc.base| + |sc.tokens| <= st.ctx && InVocab(sc.su.model, sc.tokens) && sc.su.info.prefillCap <= st.cap ==>
      link.trouble > old(link.trouble) || st.trouble > old(st.trouble)
    ensures sc.SessionAt(|sc.tokens|).pairs == Annotate(sc.su.model, sc.base + sc.tokens)
    ensures sc.SessionAt(|sc.tokens|).ctx == sc.start.sessions[sc.id].ctx && !sc.SessionAt(|sc.tokens|).spec
  {
    hide Link.Future, Local, FinalRow, Annotate, CaughtUp, ServedBy;
    ghost var caught0 := st.caught;
    assert sc.All()[..sc.Pos0() + |sc.tokens|] == sc.All();
    ok, logits := PlainSpan(link, st, sc);
    if ok { SpanHistories(sc, st.hist, st.caught, caught0); }
  }

  /** After a whole Plain span the prefix stage and the MTP head stand at its end. */
  lemma SpanHistories(sc: Scene, hist: seq<Token>, caught: seq<Caught>, caught0: seq<Caught>)
    requires sc.tokens != [] && sc.mode.Plain?
    requires Local(sc, hist, caught, caught0, |sc.tokens|, |sc.tokens|)
    requires sc.base != [] && sc.su.info.mtp ==> caught0 == CaughtUp(sc.su.model, sc.base)
    ensures hist == sc.All()
    ensures sc.su.info.mtp ==> caught == CaughtUp(sc.su.model, sc.All())
    ensures sc.All()[..sc.Pos0() + |sc.tokens|] == sc.All()
  {
    var all, m := sc.All(), sc.su.model;
    assert all[..sc.Pos0() + |sc.tokens|] == all;
    forall i | 0 <= i < |all|
      ensures (CaughtUp(m, sc.base) + CaughtRows(sc, |sc.tokens|))[i] == CaughtUp(m, all)[i]
    {
      if i < |sc.base| { assert all[..i + 1] == sc.base[..i + 1]; }
      else { assert all[..sc.Pos0() + (i - sc.Pos0()) + 1] == all[..i + 1]; }
    }
    assert CaughtUp(m, []) == [];
  }

  lemma CommittedHistories(sc: Scene, commit: nat)
    requires sc.Ready() && 0 < commit <= |sc.tokens|
    ensures CaughtUp(sc.su.model, sc.base) + CaughtRows(sc, commit)
            == CaughtUp(sc.su.model, sc.base + sc.tokens[..commit])
    ensures sc.RowAt(commit - 1) == FinalRow(sc.su.model, sc.base + sc.tokens[..commit])
  {
    var all, hist, m := sc.All(), sc.base + sc.tokens[..commit], sc.su.model;
    assert all[..sc.Pos0() + commit] == hist;
    forall i | 0 <= i < |hist|
      ensures (CaughtUp(m, sc.base) + CaughtRows(sc, commit))[i] == CaughtUp(m, hist)[i]
    {
      if i < |sc.base| { assert hist[..i + 1] == sc.base[..i + 1]; }
      else { assert all[..sc.Pos0() + (i - sc.Pos0()) + 1] == hist[..i + 1]; }
    }
    assert all[..sc.Pos0() + (commit - 1) + 1] == hist;
  }

  lemma ServeCreate(w: Worker, ss: map<int, WSession>, id: nat, ctx: nat)
    requires 0 < id && id !in ss && 0 < ctx <= w.info.contextSize
    ensures w.Serve(ss, Frame(KIND_CREATE, [id, ctx]))
            == Served(ss[id := WSession(ctx, [], false, 0)], [ResultFrame(id, 0, [])], false)
  {
  }

  /** The CREATE exchange. */
  method CreateRemote(link: Link, su: Setup, id: nat, ctx: nat) returns (ok: bool)
    requires 0 < id && id !in link.Future().sessions && 0 < ctx <= link.worker.info.contextSize
    requires !link.Future().fault && link.Future().replies == []
    modifies link
    ensures !link.Future().fault
    ensures link.trouble >= old(link.trouble) && (ok ==> link.alive) && (!ok && old(link.alive) ==> link.trouble > old(link.trouble))
    ensures ok ==> link.Future() == Served(old(link.Future()).sessions[id := WSession(ctx, [], false, 0)], [], false)
  {
    hide Link.Future;
    ServeCreate(link.worker, link.Future().sessions, id, ctx);
    ok := link.Send(Frame(KIND_CREATE, [id, ctx]));
    if !ok { return; }
    var rows;
    ok, rows := ResultRows(link, su, id, 0, 0);
  }

  /** The FREE exchange. */
  method FreeRemote(link: Link, su: Setup, id: nat) returns (ok: bool)
    requires 0 < id && id in link.Future().sessions && !link.Future().fault && link.Future().replies == []
    modifies link
    ensures !link.Future().fault
    ensures link.trouble >= old(link.trouble) && (ok ==> link.alive) && (!ok && old(link.alive) ==> link.trouble > old(link.trouble))
    ensures ok ==> link.Future() == Served(old(link.Future()).sessions - {id}, [], false)
  {
    hide Link.Future;
    ServeFree(link.worker, link.Future().sessions, id);
    ok := link.Send(Frame(KIND_FREE, [id]));
    if !ok { return; }
    var rows;
    ok, rows := ResultRows(link, su, id, 0, 0);
  }

  lemma ServeFree(w: Worker, ss: map<int, WSession>, id: nat)
    requires 0 < id && id in ss
    ensures w.Serve(ss, Frame(KIND_FREE, [id])) == Served(ss - {id}, [ResultFrame(id, 0, [])], false)
  {
  }
}
