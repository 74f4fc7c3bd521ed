/** From bytes to keys: the pending-key assembler of linenoiseEditFeed, which
    must not depend on how the terminal's bytes are cut into reads. */
module Keys {
  import opened Utf8
  import opened Grapheme
  import opened EditLine

  const ESC: Byte := 27
  const RUBOUT: Byte := 127
  const PENDING_MAX := 32
  const FFFD: seq<Byte> := [0xEF, 0xBF, 0xBD]

  /** What the editor acts on: text to insert, a control byte, or the body of an
      escape sequence after its ESC. */
  datatype Event = Text(bytes: seq<Byte>) | Control(c: Byte) | Sequence(body: seq<Byte>)

  datatype Assembled = Assembled(pending: seq<Byte>, events: seq<Event>)

  /** Input held back: nothing, an escape sequence, or an unfinished character. */
  predicate Pending(p: seq<Byte>) {
    || p == []
    || (p[0] == ESC && |p| < PENDING_MAX && (|p| >= 2 ==> p[1] == '[' as int || p[1] == 'O' as int))
    || (0xC2 <= p[0] <= 0xF4 && |p| < ByteLen(p[0]) && forall i :: 1 <= i < |p| ==> Continuation(p[i]))
  }

  /** The assembler's test on a finished multi-byte sequence. */
  predicate Acceptable(p: seq<Byte>)
    requires p != [] && |p| == ByteLen(p[0])
  {
    var cp, need := DecodeChar(p), |p|;
    cp <= 0x10FFFF && !(0xD800 <= cp <= 0xDFFF) && (need != 2 || cp >= 0x80)
    && (need != 3 || cp >= 0x800) && (need != 4 || cp >= 0x10000)
  }

  function Start(c: Byte): Assembled {
    if c == ESC || c >= 0xC2 then
      if c > 0xF4 then Assembled([], [Text(FFFD)]) else Assembled([c], [])
    else if c >= 0x80 then Assembled([], [Text(FFFD)])
    else if c >= 32 && c != RUBOUT then Assembled([], [Text([c])])
    else Assembled([], [Control(c)])
  }

  /** One byte: what is held back afterwards, and what the editor gets to do. */
  function Assemble(p: seq<Byte>, c: Byte): Assembled {
    if p == [] then Start(c)
    else if p[0] != ESC then
      if !Continuation(c) then Assembled(Start(c).pending, [Text(FFFD)] + Start(c).events)
      else if |p| + 1 < ByteLen(p[0]) then Assembled(p + [c], [])
      else if |p| + 1 == ByteLen(p[0]) && Acceptable(p + [c]) then Assembled([], [Text(p + [c])])
      else Assembled([], [Text(FFFD)])
    else if |p| == 1 && c != '[' as int && c != 'O' as int then Start(c)
    else if |p| >= 2 && '@' as int <= c <= '~' as int then Assembled([], [Sequence((p + [c])[1..])])
    else if |p| + 1 == PENDING_MAX then Assembled([], [])
    else Assembled(p + [c], [])
  }

  function AssembleAll(p: seq<Byte>, s: seq<Byte>): Assembled
    decreases |s|
  {
    if s == [] then Assembled(p, [])
    else
      var first := Assemble(p, s[0]);
      var rest := AssembleAll(first.pending, s[1..]);
      Assembled(rest.pending, first.events + rest.events)
  }

  /** How the bytes are cut does not matter. */
  lemma {:induction false} AssembleSplit(p: seq<Byte>, a: seq<Byte>, b: seq<Byte>)
    ensures var m := AssembleAll(p, a);
      AssembleAll(p, a + b) == Assembled(AssembleAll(m.pending, b).pending, m.events + AssembleAll(m.pending, b).events)
    decreases |a|
  {
    hide Assemble;
    if a == [] {
      assert a + b == b;
    } else {
      AssembleSplit(Assemble(p, a[0]).pending, a[1..], b);
      assert (a + b)[1..] == a[1..] + b;
    }
  }

  /** Editing keys carry only insertable text, and sequences keep the introducer
      the dispatcher looks for. */
  predicate WellBehaved(e: Event) {
    match e
    case Text(t) => Insertable(t)
    case Control(c) => c < 32 || c == RUBOUT
    case Sequence(b) => |b| >= 2 && (b[0] == '[' as int || b[0] == 'O' as int) && '@' as int <= b[|b| - 1] <= '~' as int
  }

  lemma ReplacementInsertable()
    ensures Insertable(FFFD)
  {
    assert Encode(0xFFFD) == FFFD;
    EncodingInsertable(0xFFFD);
  }

  lemma AsciiInsertable(c: Byte)
    requires 0 < c < 0x80
    ensures Insertable([c])
  {
    EncodingInsertable(c);
  }

  lemma StartBehaves(c: Byte)
    ensures Pending(Start(c).pending) && |Start(c).events| <= 1
    ensures forall i :: 0 <= i < |Start(c).events| ==> WellBehaved(Start(c).events[i])
  {
    hide WellFormed;
    ReplacementInsertable();
    if 32 <= c < 0x7F { AsciiInsertable(c); }
  }

  /** The test accepts exactly the encodings. */
  lemma AcceptableIsEncoding(p: seq<Byte>)
    requires p != [] && 0xC2 <= p[0] <= 0xF4 && |p| == ByteLen(p[0])
    requires forall i :: 1 <= i < |p| ==> Continuation(p[i])
    ensures Acceptable(p) <==> WellFormed(p)
    ensures Acceptable(p) ==> Scalar(DecodeChar(p)) && p == Encode(DecodeChar(p)) && 0 !in p
  {
    assert p[|p|..] == [];
    assert WellFormed([]);
    assert p[..|p|] == p;
    if Acceptable(p) { ValueBits(p, |p|); }
  }

  lemma AssembleBehaves(p: seq<Byte>, c: Byte)
    requires Pending(p)
    ensures var r := Assemble(p, c);
      Pending(r.pending) && forall i :: 0 <= i < |r.events| ==> WellBehaved(r.events[i])
  {
    hide WellFormed, Start;
    StartBehaves(c);
    ReplacementInsertable();
    if p != [] && p[0] != ESC && Continuation(c) && |p| + 1 == ByteLen(p[0]) { AcceptableIsEncoding(p + [c]); }
  }

  /** Whatever arrives, the input held back stays bounded and well shaped. */
  lemma {:induction false} AssembleAllBehaves(p: seq<Byte>, s: seq<Byte>)
    requires Pending(p)
    ensures var r := AssembleAll(p, s);
      Pending(r.pending) && |r.pending| < PENDING_MAX
      && forall i :: 0 <= i < |r.events| ==> WellBehaved(r.events[i])
    decreases |s|
  {
    hide Assemble;
    if s != [] {
      AssembleBehaves(p, s[0]);
      AssembleAllBehaves(Assemble(p, s[0]).pending, s[1..]);
    }
  }

  /** Characters a key press can insert. */
  predicate Printable(cp: int) {
    Scalar(cp) && cp >= 32 && cp != 127
  }

  predicate AllPrintable(cps: seq<int>) {
    Scalars(cps) && forall i :: 0 <= i < |cps| ==> Printable(cps[i])
  }

  function Texts(cps: seq<int>): (es: seq<Event>)
    requires AllPrintable(cps)
  {
    if cps == [] then [] else [Text(Encode(cps[0]))] + Texts(cps[1..])
  }

  lemma {:induction false} AssemblePart(e: seq<Byte>, k: nat)
    requires e != [] && 0xC2 <= e[0] <= 0xF4 && 1 <= k < ByteLen(e[0]) == |e|
    requires forall i :: 1 <= i < |e| ==> Continuation(e[i])
    ensures AssembleAll([], e[..k]) == Assembled(e[..k], [])
  {
    hide AssembleAll, Acceptable, DecodeChar;
    if k == 1 {
      assert e[..1] == [e[0]];
      AssembleOne([], e[0]);
    } else {
      AssemblePart(e, k - 1);
      assert e[..k] == e[..k - 1] + [e[k - 1]];
      AssembleSplit([], e[..k - 1], [e[k - 1]]);
      AssembleOne(e[..k - 1], e[k - 1]);
    }
  }

  /** One character, whatever its length, is one key. */
  lemma AssembleCharacter(cp: int)
    requires Printable(cp)
    ensures AssembleAll([], Encode(cp)) == Assembled([], [Text(Encode(cp))])
  {
    hide WellFormed, Encode, AssembleAll, DecodeChar;
    var e := Encode(cp);
    EncodeShape(cp);
    if cp < 0x80 {
      assert e == [e[0]];
      AssembleOne([], e[0]);
    } else {
      var front, last := e[..|e| - 1], e[|e| - 1];
      AssemblePart(e, |e| - 1);
      assert e == front + [last];
      AssembleSplit([], front, [last]);
      AssembleOne(front, last);
      assert Acceptable(e);
    }
  }

  lemma AssembleOne(p: seq<Byte>, c: Byte)
    ensures AssembleAll(p, [c]) == Assemble(p, c)
  {
    hide Assemble;
    var a := Assemble(p, c);
    assert [c][1..] == [] && AssembleAll(a.pending, []) == Assembled(a.pending, []);
  }

  /** Every text without control characters reaches the editor intact. */
  lemma {:induction false} AssembleText(cps: seq<int>)
    requires AllPrintable(cps)
    ensures AssembleAll([], EncodeAll(cps)) == Assembled([], Texts(cps))
  {
    if cps != [] {
      AssembleCharacter(cps[0]);
      AssembleText(cps[1..]);
      AssembleSplit([], Encode(cps[0]), EncodeAll(cps[1..]));
    }
  }

  /** A character cut short becomes one U+FFFD and costs nothing of what follows. */
  lemma TruncatedCharacter(cp: int, k: nat, cps: seq<int>)
    requires Scalar(cp) && 1 <= k < |Encode(cp)|
    requires AllPrintable(cps) && cps != []
    ensures AssembleAll([], Encode(cp)[..k] + EncodeAll(cps)) == Assembled([], [Text(FFFD)] + Texts(cps))
  {
    hide WellFormed, Encode, Acceptable, Start;
    var e, s := Encode(cp), EncodeAll(cps);
    EncodeShape(cp);
    EncodeShape(cps[0]);
    AssemblePart(e, k);
    AssembleSplit([], e[..k], s);
    AssembleText(cps);
    Resynchronize(e[..k], s);
  }

  /** A byte that cannot go on with the character held back starts afresh. */
  lemma Resynchronize(p: seq<Byte>, s: seq<Byte>)
    requires p != [] && p[0] != ESC && s != [] && !Continuation(s[0])
    ensures var alone := AssembleAll([], s);
      AssembleAll(p, s) == Assembled(alone.pending, [Text(FFFD)] + alone.events)
  {
  }

  /** A control byte is a key of its own, an ESC no sequence follows is lost, and a byte
      that begins no character becomes one U+FFFD. */
  lemma SingleKey(c: Byte)
    ensures (c < 32 && c != 27) || c == 127 ==> AssembleAll([], [c]) == Assembled([], [Control(c)])
    ensures c != '[' as int && c != 'O' as int ==> AssembleAll([], [27, c]) == AssembleAll([], [c])
    ensures 0x80 <= c < 0xC2 || c > 0xF4 ==> AssembleAll([], [c]) == Assembled([], [Text([0xEF, 0xBF, 0xBD])])
  {
    hide AssembleAll;
    AssembleOne([], c);
    AssembleOne([ESC], c);
    AssembleOne([], ESC);
    AssembleSplit([], [ESC], [c]);
    assert [27, c] == [ESC] + [c];
  }

  /** The beginning of a sequence: an introducer and no final byte. */
  predicate Opening(b: seq<Byte>) {
    b != [] && (b[0] == '[' as int || b[0] == 'O' as int) && forall i :: 1 <= i < |b| ==> !('@' as int <= b[i] <= '~' as int)
  }

  lemma {:induction false} OpeningHeld(b: seq<Byte>)
    requires Opening(b) && |b| < 31
    ensures AssembleAll([], [ESC] + b) == Assembled([ESC] + b, [])
    decreases |b|
  {
    hide AssembleAll, Start;
    var n := |b| - 1;
    var front := b[..n];
    AssembleOne([], ESC);
    assert Start(ESC) == Assembled([ESC], []) by { StartEscape(); }
    if n > 0 { OpeningHeld(front); }
    assert [ESC] + front + [b[n]] == [ESC] + b;
    if n == 0 { assert [ESC] + front == [ESC]; }
    AssembleSplit([], [ESC] + front, [b[n]]);
    AssembleOne([ESC] + front, b[n]);
  }

  lemma StartEscape()
    ensures Start(ESC) == Assembled([ESC], [])
  {
  }

  /** An escape sequence of up to 31 bytes after its ESC is one key with all of them, and
      a longer one is dropped where it gets too long. */
  lemma SequenceKey(b: seq<Byte>, c: Byte)
    requires Opening(b) && |b| <= 30
    ensures '@' as int <= c <= '~' as int ==> AssembleAll([], [27] + b + [c]) == Assembled([], [Sequence(b + [c])])
    ensures |b| == 30 && !('@' as int <= c <= '~' as int) ==> AssembleAll([], [27] + b + [c]) == Assembled([], [])
  {
    hide AssembleAll, Start;
    OpeningHeld(b);
    AssembleSplit([], [ESC] + b, [c]);
    AssembleOne([ESC] + b, c);
    assert ([ESC] + b + [c])[1..] == b + [c];
  }
}
