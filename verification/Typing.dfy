/** The editor as a fold over bytes: what every byte sequence leads to, however it is
    cut into reads and wherever a paste begins, pauses and ends. */
module Typing {
  import opened Utf8
  import opened Grapheme
  import opened EditLine
  import opened Keys
  import opened Editing
  import opened Paste

  /** The line, the bytes held back, and the paste in progress, if there is one. */
  datatype Sitting = Sitting(edit: Edit, pending: seq<Byte>, pasting: bool, seen: seq<Byte>)

  datatype Fate = Going(s: Sitting) | Over(outcome: Outcome, rest: seq<Byte>)

  ghost predicate Fine(s: Sitting, cap: nat) {
    && Good(s.edit, cap) && Pending(s.pending)
    && if s.pasting then s.pending == [] && Unended(s.seen) else s.seen == []
  }

  predicate EndsHere(seen: seq<Byte>) {
    |seen| >= |END| && seen[|seen| - |END|..] == END
  }

  /** One byte: part of a paste, its end, its beginning, or part of a key. */
  ghost function ByteIn(s: Sitting, cap: nat, c: Byte): (r: Fate)
    requires Fine(s, cap)
    ensures r.Going? ==> Fine(r.s, cap)
  {
    hide WellFormed, Good, Press, PressAll, Pasted, Assemble, WellBehaved, Unended;
    if s.pasting then
      var seen := s.seen + [c];
      if EndsHere(seen) then Going(Sitting(Pasted(s.edit, cap, seen[..|seen| - |END|]), [], false, []))
      else
        NotYet(s.seen, c);
        Going(s.(seen := seen))
    else
      AssembleBehaves(s.pending, c);
      var a := Assemble(s.pending, c);
      assert AllBehave(a.events);
      if a.events == [Sequence(PASTE)] then
        PasteAlone(s.pending, c);
        Nothing();
        Going(Sitting(s.edit, [], true, []))
      else
        var o := PressAll(s.edit, cap, a.events);
        if o.More? then Going(Sitting(o.next, a.pending, false, [])) else Over(o, [])
  }

  lemma Nothing()
    ensures Unended([])
  {
  }

  lemma PasteAlone(p: seq<Byte>, c: Byte)
    requires Pending(p) && Assemble(p, c).events == [Sequence(PASTE)]
    ensures Assemble(p, c).pending == []
  {
    StartsNoPaste(c);
    assert ([Text(FFFD)] + Start(c).events)[0] == Text(FFFD);
  }

  lemma StartsNoPaste(c: Byte)
    ensures Start(c).events != [Sequence(PASTE)]
  {
  }

  /** Without a terminator at the end there is still none. */
  lemma NotYet(seen: seq<Byte>, c: Byte)
    requires Unended(seen) && !EndsHere(seen + [c])
    ensures Unended(seen + [c])
  {
    var s := seen + [c];
    forall i | 0 <= i <= |s| - |END| ensures s[i..][..|END|] != END {
      if i + |END| <= |seen| { assert s[i..][..|END|] == seen[i..][..|END|]; }
      else { assert s[i..][..|END|] == s[|s| - |END|..]; }
    }
  }

  /** Bytes one after the other, until one ends the edit. */
  ghost function BytesIn(s: Sitting, cap: nat, q: seq<Byte>): (r: Fate)
    requires Fine(s, cap)
    ensures r.Going? ==> Fine(r.s, cap)
    decreases |q|
  {
    if q == [] then Going(s)
    else
      var first := ByteIn(s, cap, q[0]);
      if first.Going? then BytesIn(first.s, cap, q[1..]) else Over(first.outcome, q[1..])
  }

  /** It does not matter how the bytes are cut. */
  lemma {:induction false} BytesCut(s: Sitting, cap: nat, a: seq<Byte>, b: seq<Byte>)
    requires Fine(s, cap)
    ensures var first := BytesIn(s, cap, a);
      BytesIn(s, cap, a + b) == if first.Going? then BytesIn(first.s, cap, b) else Over(first.outcome, first.rest + b)
    decreases |a|
  {
    hide ByteIn, Fine;
    if a == [] {
      assert a + b == b;
    } else {
      assert (a + b)[0] == a[0] && (a + b)[1..] == a[1..] + b;
      var first := ByteIn(s, cap, a[0]);
      if first.Going? { BytesCut(first.s, cap, a[1..], b); }
    }
  }

  lemma NothingIn(s: Sitting, cap: nat)
    requires Fine(s, cap)
    ensures BytesIn(s, cap, []) == Going(s)
  {
    hide Fine;
  }

  /** What the first byte outside a paste leads to. */
  lemma FirstIn(s: Sitting, cap: nat, q: seq<Byte>)
    requires Fine(s, cap) && q != []
    ensures !s.pasting ==>
      var a := Assemble(s.pending, q[0]);
      && AllBehave(a.events)
      && if a.events == [Sequence(PASTE)] then
           && Fine(Sitting(s.edit, [], true, []), cap)
           && BytesIn(s, cap, q) == BytesIn(Sitting(s.edit, [], true, []), cap, q[1..])
         else
           var o := PressAll(s.edit, cap, a.events);
           if o.More? then
             && Fine(Sitting(o.next, a.pending, false, []), cap)
             && BytesIn(s, cap, q) == BytesIn(Sitting(o.next, a.pending, false, []), cap, q[1..])
           else BytesIn(s, cap, q) == Over(o, q[1..])
  {
    hide WellFormed, Good, Press, PressAll, Pasted, Assemble, WellBehaved, Unended;
    AssembleBehaves(s.pending, q[0]);
    Nothing();
    assert ByteIn(s, cap, q[0]) == ByteIn(s, cap, q[0]);
  }

  lemma Before(seen: seq<Byte>, more: seq<Byte>)
    requires Unended(seen + more)
    ensures Unended(seen) && (more != [] ==> !EndsHere(seen + [more[0]]) && Unended(seen + [more[0]]))
  {
    var s := seen + more;
    forall i | 0 <= i <= |seen| - |END| ensures seen[i..][..|END|] != END {
      assert s[i..][..|END|] == seen[i..][..|END|];
    }
    if more != [] {
      var t := seen + [more[0]];
      forall i | 0 <= i <= |t| - |END| ensures t[i..][..|END|] != END {
        assert s[i..][..|END|] == t[i..][..|END|];
      }
      if |t| >= |END| { assert t[|t| - |END|..][..|END|] == t[|t| - |END|..]; }
    }
  }

  /** While no terminator comes the paste only grows. */
  lemma {:induction false} PasteGoesOn(s: Sitting, cap: nat, more: seq<Byte>, rest: seq<Byte>)
    requires Fine(s, cap) && s.pasting && Unended(s.seen + more)
    ensures Fine(s.(seen := s.seen + more), cap)
    ensures BytesIn(s, cap, more + rest) == BytesIn(s.(seen := s.seen + more), cap, rest)
    decreases |more|
  {
    hide Good, Pending, Unended, EndsHere, Pasted;
    if more == [] {
      assert s.seen + more == s.seen && more + rest == rest;
      assert s.(seen := s.seen) == s;
    } else {
      var s' := s.(seen := s.seen + [more[0]]);
      Before(s.seen, more);
      assert s.seen + more == s'.seen + more[1..];
      assert (more + rest)[0] == more[0] && (more + rest)[1..] == more[1..] + rest;
      PasteGoesOn(s', cap, more[1..], rest);
    }
  }

  /** A payload is not yet complete before its last byte. */
  lemma PayloadCut(used: seq<Byte>, payload: seq<Byte>)
    requires Payload(used, payload)
    ensures |used| == |payload| + |END| && used[..|payload|] == payload && EndsHere(used) && Unended(used[..|used| - 1])
  {
    var t := used[..|used| - 1];
    forall i | 0 <= i <= |t| - |END| ensures t[i..][..|END|] != END {
      assert used[i..][..|END|] == t[i..][..|END|];
    }
  }

  /** At the first terminator the paste is finished with all that came before it. */
  lemma PasteEnds(s: Sitting, cap: nat, q: seq<Byte>, used: seq<Byte>, rest: seq<Byte>, payload: seq<Byte>)
    requires Fine(s, cap) && s.pasting && used + rest == s.seen + q && Payload(used, payload)
    ensures BytesIn(s, cap, q) == BytesIn(Sitting(Pasted(s.edit, cap, payload), [], false, []), cap, rest)
  {
    hide Good, Pending, Pasted, Payload, BytesIn;
    PayloadCut(used, payload);
    LongerThan(s.seen, used, q, rest);
    hide Unended, EndsHere;
    var n := |used| - |s.seen|;
    var more, c := q[..n - 1], q[n - 1];
    assert used == s.seen + q[..n] && rest == q[n..];
    assert s.seen + more == used[..|used| - 1];
    assert q == more + ([c] + rest);
    PasteGoesOn(s, cap, more, [c] + rest);
    assert s.seen + more + [c] == used;
    LastByte(s.(seen := s.seen + more), cap, c, rest, payload);
  }

  lemma LongerThan(seen: seq<Byte>, used: seq<Byte>, q: seq<Byte>, rest: seq<Byte>)
    requires Unended(seen) && EndsHere(used) && used + rest == seen + q
    ensures |used| > |seen| && used == (seen + q)[..|used|]
  {
    hide Unended, EndsHere;
    assert used == (seen + q)[..|used|];
    if |used| <= |seen| {
      assert used == seen[..|used|];
      EndInside(seen, |used|);
    }
  }

  lemma EndInside(seen: seq<Byte>, n: nat)
    requires n <= |seen| && EndsHere(seen[..n])
    ensures !Unended(seen)
  {
    assert seen[n - |END|..][..|END|] == seen[..n][n - |END|..];
  }

  lemma LastByte(s: Sitting, cap: nat, c: Byte, rest: seq<Byte>, payload: seq<Byte>)
    requires Fine(s, cap) && s.pasting && EndsHere(s.seen + [c])
    requires |s.seen| + 1 == |payload| + |END| && (s.seen + [c])[..|payload|] == payload
    ensures BytesIn(s, cap, [c] + rest) == BytesIn(Sitting(Pasted(s.edit, cap, payload), [], false, []), cap, rest)
  {
    hide Good, Pending, Pasted, Unended, EndsHere;
    assert ([c] + rest)[0] == c && ([c] + rest)[1..] == rest;
  }

  /** An edit ends with the text of a good line. */
  lemma {:induction false} FateText(s: Sitting, cap: nat, q: seq<Byte>)
    requires Fine(s, cap)
    ensures var o := BytesIn(s, cap, q); o.Over? && o.outcome.Done? ==> Insertable(o.outcome.text) && |o.outcome.text| <= cap
    decreases |q|
  {
    hide WellFormed, Good, Press, PressAll, Pasted, Assemble, WellBehaved, Unended;
    if q != [] {
      var first := ByteIn(s, cap, q[0]);
      if first.Going? {
        FateText(first.s, cap, q[1..]);
      } else {
        FirstIn(s, cap, q);
        DoneText(s.edit, cap, Assemble(s.pending, q[0]).events);
      }
    }
  }

  ghost predicate NoPaste(evs: seq<Event>) {
    forall i :: 0 <= i < |evs| ==> evs[i] != Sequence(PASTE)
  }

  lemma {:induction false} TextsNoPaste(cps: seq<int>)
    requires AllPrintable(cps)
    ensures NoPaste(Texts(cps))
  {
    if cps != [] { TextsNoPaste(cps[1..]); }
  }

  /** The text an edit ends with is that of a good line. */
  lemma {:induction false} DoneText(e: Edit, cap: nat, evs: seq<Event>)
    requires Good(e, cap) && AllBehave(evs)
    ensures var o := PressAll(e, cap, evs); o.Done? ==> Insertable(o.text) && |o.text| <= cap
    decreases |evs|
  {
    hide WellFormed, Press;
    if evs != [] && Press(e, cap, evs[0]).More? { DoneText(Press(e, cap, evs[0]).next, cap, evs[1..]); }
  }

  /** The first byte's keys come first. */
  lemma FirstByte(e: Edit, cap: nat, p: seq<Byte>, s: seq<Byte>)
    requires Good(e, cap) && Pending(p) && s != []
    requires var evs := AssembleAll(p, s).events;
      NoPaste(evs) && AllBehave(evs) && PressAll(e, cap, evs).More?
    ensures var a := Assemble(p, s[0]);
      && AllBehave(a.events) && a.events != [Sequence(PASTE)] && PressAll(e, cap, a.events).More?
      && var next, rest := PressAll(e, cap, a.events).next, AssembleAll(a.pending, s[1..]);
      && NoPaste(rest.events) && AllBehave(rest.events)
      && rest.pending == AssembleAll(p, s).pending
      && PressAll(next, cap, rest.events) == PressAll(e, cap, AssembleAll(p, s).events)
  {
    hide WellFormed, Good, Press, PressAll, Assemble, WellBehaved;
    var a := Assemble(p, s[0]);
    var rest := AssembleAll(a.pending, s[1..]);
    var all := a.events + rest.events;
    assert AllBehave(a.events) by { assert forall i :: 0 <= i < |a.events| ==> a.events[i] == all[i]; }
    assert forall i :: 0 <= i < |rest.events| ==> rest.events[i] == all[|a.events| + i];
    if |a.events| > 0 { assert all[0] == a.events[0]; }
    PressAllAppend(e, cap, a.events, rest.events);
  }

  lemma NoBytes(e: Edit, cap: nat, p: seq<Byte>)
    requires Good(e, cap)
    ensures AssembleAll(p, []) == Assembled(p, []) && PressAll(e, cap, []) == Outcome.More(e)
  {
  }

  /** Bytes act as the keys they spell, as long as none of these starts a paste or ends
      the edit. */
  lemma {:induction false} BytesAreKeys(s: Sitting, cap: nat, q: seq<Byte>)
    requires Fine(s, cap) && !s.pasting
    requires var evs := AssembleAll(s.pending, q).events;
      NoPaste(evs) && AllBehave(evs) && PressAll(s.edit, cap, evs).More?
    ensures var a := AssembleAll(s.pending, q);
      BytesIn(s, cap, q) == Going(Sitting(PressAll(s.edit, cap, a.events).next, a.pending, false, []))
    decreases |q|
  {
    hide WellFormed, Good, Press, PressAll, Assemble, AllBehave, AssembleAll, NoPaste, BytesIn, Pending, Unended;
    if q == [] {
      NoBytes(s.edit, cap, s.pending);
      NothingIn(s, cap);
    } else {
      FirstByte(s.edit, cap, s.pending, q);
      FirstIn(s, cap, q);
      var a := Assemble(s.pending, q[0]);
      BytesAreKeys(Sitting(PressAll(s.edit, cap, a.events).next, a.pending, false, []), cap, q[1..]);
      AllOf(s.pending, q);
    }
  }

  lemma AllOf(p: seq<Byte>, q: seq<Byte>)
    requires q != []
    ensures AssembleAll(p, q).pending == AssembleAll(Assemble(p, q[0]).pending, q[1..]).pending
  {
    hide Assemble;
  }

  lemma IntroducerHeld()
    ensures AssembleAll([], [27, 91, 50, 48, 48]) == Assembled([27, 91, 50, 48, 48], [])
    ensures Assemble([27, 91, 50, 48, 48], 126) == Assembled([], [Sequence(PASTE)])
  {
    OpeningHeld([91, 50, 48, 48]);
    var p: seq<Byte> := [27, 91, 50, 48, 48];
    assert [27] + [91, 50, 48, 48] == p;
    assert (p + [126])[1..] == PASTE;
  }

  /** A whole bracketed paste: what stands between the two markers is pasted, and what
      is behind goes on as keys. */
  lemma PasteThrough(s: Sitting, cap: nat, payload: seq<Byte>, rest: seq<Byte>)
    requires Fine(s, cap) && !s.pasting && s.pending == [] && Payload(payload + END, payload)
    ensures BytesIn(s, cap, [27, 91, 50, 48, 48, 126] + payload + [27, 91, 50, 48, 49, 126] + rest)
         == BytesIn(Sitting(Pasted(s.edit, cap, payload), [], false, []), cap, rest)
  {
    hide WellFormed, Good, Pasted, PressAll, Assemble, AssembleAll, Payload, Unended, Pending, BytesIn, WellBehaved;
    var head, tail := [27, 91, 50, 48, 48], payload + END + rest;
    var q := [126] + tail;
    assert [27, 91, 50, 48, 48, 126] + payload + [27, 91, 50, 48, 49, 126] + rest == head + q;
    IntroducerHeld();
    NoBytes(s.edit, cap, []);
    BytesCut(s, cap, head, q);
    BytesAreKeys(s, cap, head);
    var held := Sitting(s.edit, head, false, []);
    BytesAreFine(s, cap, head);
    FirstIn(held, cap, q);
    assert q[0] == 126 && q[1..] == tail;
    assert [] + tail == tail;
    PasteEnds(Sitting(s.edit, [], true, []), cap, tail, payload + END, rest, payload);
  }

  lemma BytesAreFine(s: Sitting, cap: nat, q: seq<Byte>)
    requires Fine(s, cap) && BytesIn(s, cap, q).Going?
    ensures Fine(BytesIn(s, cap, q).s, cap)
  {
  }

  /** Enter ends the edit with the line as it is, and keeps the bytes behind it. */
  lemma EnterEnds(s: Sitting, cap: nat, rest: seq<Byte>)
    requires Fine(s, cap) && !s.pasting && s.pending == []
    ensures BytesIn(s, cap, [13] + rest)
         == Over(Done(s.edit.line.buf, s.edit.history[..|s.edit.history| - 1]), rest)
  {
    hide WellFormed, Sound, Recallable, Pasted, BytesIn, Press;
    FirstIn(s, cap, [13] + rest);
    assert ([13] + rest)[0] == 13 && ([13] + rest)[1..] == rest;
    assert Assemble([], 13) == Assembled([], [Control(13)]);
    EnterPressed(s.edit, cap);
  }

  lemma EnterPressed(e: Edit, cap: nat)
    requires Good(e, cap)
    ensures AllBehave([Control(13)]) && PressAll(e, cap, [Control(13)]) == Done(e.line.buf, e.history[..|e.history| - 1])
  {
    hide WellFormed, Sound, Recallable;
  }
}
