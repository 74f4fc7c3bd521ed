/** Thinking tags in a stream of token texts.  Tokens may cut a tag anywhere; a
    possible beginning of one is held back until it is decided.  Bytes are
    written as characters. */
module TagSplitter {
  import opened Basics

  const OPEN := "<think>"
  const CLOSE := "</think>"
  const PENDING_MAX := 16

  datatype Piece = Opened | Closed | Char(c: char)

  /** The whole text at once: tags where they are spelled out, characters elsewhere. */
  function Pieces(s: string): (ps: seq<Piece>)
    decreases |s|
  {
    if s == "" then []
    else if OPEN <= s then [Opened] + Pieces(s[|OPEN|..])
    else if CLOSE <= s then [Closed] + Pieces(s[|CLOSE|..])
    else [Char(s[0])] + Pieces(s[1..])
  }

  function Spelled(ps: seq<Piece>): string {
    if ps == [] then "" else Spelling(ps[0]) + Spelled(ps[1..])
  }

  /** Nothing is lost: the pieces spell the text. */
  lemma {:induction false} PiecesSpell(s: string)
    ensures Spelled(Pieces(s)) == s
    decreases |s|
  {
    hide OPEN, CLOSE, Pieces, Spelled;
    if s != "" {
      var n, p := Head(s);
      PiecesSpell(s[n..]);
      SpelledOne(p, Pieces(s[n..]));
      assert s == s[..n] + s[n..];
    } else {
      Nothing();
    }
  }

  function Spelling(p: Piece): string {
    match p case Opened => OPEN case Closed => CLOSE case Char(c) => [c]
  }

  lemma Head(s: string) returns (n: nat, p: Piece)
    requires s != ""
    ensures 0 < n <= |s| && Pieces(s) == [p] + Pieces(s[n..]) && s[..n] == Spelling(p)
  {
    hide OPEN, CLOSE;
    Tags();
    if OPEN <= s { return |OPEN|, Opened; }
    if CLOSE <= s { return |CLOSE|, Closed; }
    return 1, Char(s[0]);
  }

  lemma SpelledOne(p: Piece, ps: seq<Piece>)
    ensures Spelled([p] + ps) == Spelling(p) + Spelled(ps)
  {
    assert ([p] + ps)[1..] == ps;
  }

  lemma Nothing()
    ensures Pieces("") == [] && Spelled([]) == ""
  {
  }

  predicate Partial(s: string, tag: string) {
    |s| < |tag| && s <= tag
  }

  /** One call's worth: the pieces decided and the tail held back. */
  function Scan(s: string, finish: bool): (r: (seq<Piece>, string))
    ensures r.1 != "" ==> !finish && (Partial(r.1, OPEN) || Partial(r.1, CLOSE))
    decreases |s|
  {
    if s == "" then ([], "")
    else if OPEN <= s then var r := Scan(s[|OPEN|..], finish); ([Opened] + r.0, r.1)
    else if CLOSE <= s then var r := Scan(s[|CLOSE|..], finish); ([Closed] + r.0, r.1)
    else if !finish && s[0] == '<' && (Partial(s, OPEN) || Partial(s, CLOSE)) then ([], s)
    else var r := Scan(s[1..], finish); ([Char(s[0])] + r.0, r.1)
  }

  /** The characters of a text that has no tag to begin. */
  function Chars(s: string): (ps: seq<Piece>)
    ensures |ps| == |s| && forall i :: 0 <= i < |s| ==> ps[i] == Char(s[i])
  {
    seq(|s|, i requires 0 <= i < |s| => Char(s[i]))
  }

  lemma {:induction false} PlainBefore(a: string, t: string)
    requires '<' !in a
    ensures Pieces(a + t) == Chars(a) + Pieces(t)
  {
    hide Chars, Pieces;
    NoChars();
    if a == "" {
      assert a + t == t && [] + Pieces(t) == Pieces(t);
    } else {
      PlainBefore(a[1..], t);
      FirstChar(a);
      PlainFirst(a[0], a[1..] + t);
      assert [a[0]] + (a[1..] + t) == a + t;
      Regroup([Char(a[0])], Chars(a[1..]), Pieces(t));
    }
  }

  /** A text without '<' is characters, and a tag behind it is a tag. */
  lemma PiecesTags(a: string, b: string)
    requires '<' !in a
    ensures Pieces(a) == Chars(a)
    ensures Pieces(a + "<think>" + b) == Chars(a) + [Opened] + Pieces(b)
    ensures Pieces(a + "</think>" + b) == Chars(a) + [Closed] + Pieces(b)
  {
    hide Chars, Pieces;
    NoChars();
    PlainBefore(a, "");
    assert a + "" == a && Chars(a) + [] == Chars(a);
    TagFirst(b);
    Regroup(a, "<think>", b);
    Regroup(a, "</think>", b);
    PlainBefore(a, "<think>" + b);
    PlainBefore(a, "</think>" + b);
    Regroup(Chars(a), [Opened], Pieces(b));
    Regroup(Chars(a), [Closed], Pieces(b));
  }

  lemma NoChars()
    ensures Chars("") == [] && Pieces("") == []
  {
  }

  lemma FirstChar(a: string)
    requires a != ""
    ensures Chars(a) == [Char(a[0])] + Chars(a[1..])
  {
  }

  lemma TagFirst(b: string)
    ensures Pieces("<think>" + b) == [Opened] + Pieces(b)
    ensures Pieces("</think>" + b) == [Closed] + Pieces(b)
  {
    var s, t := OPEN + b, CLOSE + b;
    assert s[|OPEN|..] == b && t[|CLOSE|..] == b;
    assert t[1] == '/' && OPEN[1] == 't';
  }

  lemma PlainFirst(c: char, s: string)
    requires c != '<'
    ensures Pieces([c] + s) == [Char(c)] + Pieces(s)
  {
    assert ([c] + s)[1..] == s && OPEN[0] == '<' && CLOSE[0] == '<';
  }

  /** What was held back decides together with whatever comes next as if the text
      had never been cut. */
  lemma {:induction false} ScanCarries(s: string, t: string)
    ensures var r := Scan(s, false); Pieces(s + t) == r.0 + Pieces(r.1 + t)
    decreases |s|
  {
    hide OPEN, CLOSE;
    var st := s + t;
    Tags();
    if s == "" {
      assert st == t && "" + t == t;
    } else if OPEN <= s {
      PrefixKept(s, t, OPEN);
      ScanCarries(s[|OPEN|..], t);
    } else if CLOSE <= s {
      NotBoth(st);
      PrefixKept(s, t, CLOSE);
      ScanCarries(s[|CLOSE|..], t);
    } else if s[0] == '<' && (Partial(s, OPEN) || Partial(s, CLOSE)) {
    } else {
      NotATag(s, t, OPEN);
      NotATag(s, t, CLOSE);
      assert st[1..] == s[1..] + t && st[0] == s[0];
      ScanCarries(s[1..], t);
    }
  }

  lemma Tags()
    ensures |OPEN| == 7 && |CLOSE| == 8 && OPEN[0] == '<' && CLOSE[0] == '<'
  {
  }

  lemma NotBoth(s: string)
    ensures !(OPEN <= s && CLOSE <= s)
  {
    assert OPEN[1] != CLOSE[1];
  }

  lemma PrefixKept(s: string, t: string, tag: string)
    requires tag <= s
    ensures tag <= s + t && (s + t)[|tag|..] == s[|tag|..] + t
  {
  }

  lemma NotATag(s: string, t: string, tag: string)
    requires s != "" && tag != "" && tag[0] == '<' && !(tag <= s) && !(s[0] == '<' && Partial(s, tag))
    ensures !(tag <= s + t)
  {
    if |s| < |tag| {
      if s[0] == '<' {
        var i :| 0 <= i < |s| && s[i] != tag[i];
        assert (s + t)[i] == s[i];
      } else {
        assert (s + t)[0] == s[0];
      }
    } else {
      assert (s + t)[..|tag|] == s[..|tag|];
    }
  }

  lemma {:induction false} ScanFinishes(s: string)
    ensures Scan(s, true) == (Pieces(s), "")
    decreases |s|
  {
    if s != "" { ScanFinishes(s[if OPEN <= s then |OPEN| else if CLOSE <= s then |CLOSE| else 1..]); }
  }

  /** After reading `fed` the pieces `done` are decided and `pending` is not. */
  ghost predicate Carried(fed: string, done: seq<Piece>, pending: string) {
    forall t: string :: Pieces(fed + t) == done + Pieces(pending + t)
  }

  lemma CarriedOn(fed: string, done: seq<Piece>, pending: string, text: string)
    requires Carried(fed, done, pending)
    ensures Carried(fed + text, done + Scan(pending + text, false).0, Scan(pending + text, false).1)
    ensures done + Scan(pending + text, true).0 == Pieces(fed + text)
  {
    hide Pieces, Scan;
    var r := Scan(pending + text, false);
    forall t: string ensures Pieces(fed + text + t) == done + r.0 + Pieces(r.1 + t) {
      assert fed + text + t == fed + (text + t);
      assert pending + text + t == pending + (text + t);
      ScanCarries(pending + text, t);
    }
    ScanFinishes(pending + text);
    assert Pieces(fed + text) == done + Pieces(pending + text);
  }

  /** One turn of either scanning loop. */
  lemma ScanStep(s: string, finish: bool)
    requires s != ""
    ensures OPEN <= s ==> Scan(s, finish) == ([Opened] + Scan(s[7..], finish).0, Scan(s[7..], finish).1)
    ensures !(OPEN <= s) && CLOSE <= s ==> Scan(s, finish) == ([Closed] + Scan(s[8..], finish).0, Scan(s[8..], finish).1)
    ensures !(OPEN <= s) && !(CLOSE <= s) ==>
      if !finish && s[0] == '<' && (Partial(s, OPEN) || Partial(s, CLOSE)) then Scan(s, finish) == ([], s)
      else Scan(s, finish) == ([Char(s[0])] + Scan(s[1..], finish).0, Scan(s[1..], finish).1)
  {
  }

  /** The printer's output: characters, and the escapes that turn grey on and off. */
  datatype Mark = Grey | Plain | Out(c: char)

  datatype Screen = Screen(inThink: bool, grey: bool, newline: bool, out: seq<Mark>)

  function Show(p: Screen, use: bool, piece: Piece): Screen {
    match piece
    case Opened => p.(inThink := true)
    case Closed =>
      var q := if use && p.grey then p.(grey := false, out := p.out + [Plain]) else p;
      Screen(false, q.grey, true, if q.newline then q.out else q.out + [Out('\n')])
    case Char(c) =>
      var q := if p.inThink && use && !p.grey then p.(grey := true, out := p.out + [Grey]) else p;
      q.(newline := c == '\n', out := q.out + [Out(c)])
  }

  function ShowAll(p: Screen, use: bool, ps: seq<Piece>): Screen
    decreases |ps|
  {
    if ps == [] then p else ShowAll(Show(p, use, ps[0]), use, ps[1..])
  }

  lemma {:induction false} ShowAllAppend(p: Screen, use: bool, a: seq<Piece>, b: seq<Piece>)
    ensures ShowAll(p, use, a + b) == ShowAll(ShowAll(p, use, a), use, b)
    decreases |a|
  {
    if a == [] {
      assert a + b == b;
    } else {
      assert (a + b)[0] == a[0] && (a + b)[1..] == a[1..] + b;
      ShowAllAppend(Show(p, use, a[0]), use, a[1..], b);
    }
  }

  /** What a reader sees: each character and whether it is grey. */
  function Seen(out: seq<Mark>): (r: (seq<(char, bool)>, bool)) {
    if out == [] then ([], false)
    else
      var before := Seen(out[..|out| - 1]);
      match out[|out| - 1]
      case Grey => (before.0, true)
      case Plain => (before.0, false)
      case Out(c) => (before.0 + [(c, before.1)], before.1)
  }

  /** What should be seen: every character, grey when it is thought and there is
      colour, and a newline at a closing tag unless the last character already was one. */
  function Expected(ps: seq<Piece>, think: bool, newline: bool, color: bool): (r: (seq<(char, bool)>, bool, bool)) {
    if ps == [] then ([], think, newline)
    else
      var before := Expected(ps[..|ps| - 1], think, newline, color);
      match ps[|ps| - 1]
      case Opened => (before.0, true, before.2)
      case Closed => (if before.2 then before.0 else before.0 + [('\n', false)], false, true)
      case Char(c) => (before.0 + [(c, before.1 && color)], before.1, c == '\n')
  }

  /** Characters no tag interrupts are all shown, grey if they are thought and there is
      colour; an opening tag starts thinking and shows nothing, and a closing one ends it
      and shows a newline unless one was just shown. */
  lemma {:induction false} ExpectedRun(ps: seq<Piece>, think: bool, newline: bool, color: bool)
    requires forall i :: 0 <= i < |ps| ==> ps[i].Char?
    ensures var r := Expected(ps, think, newline, color);
      && |r.0| == |ps| && r.1 == think && (forall i :: 0 <= i < |ps| ==> r.0[i] == (ps[i].c, think && color))
      && r.2 == if ps == [] then newline else ps[|ps| - 1].c == '\n'
    ensures Expected(ps + [Opened], think, newline, color) == (Expected(ps, think, newline, color).0, true, Expected(ps, think, newline, color).2)
    ensures Expected(ps + [Closed], think, newline, color) ==
      (Expected(ps, think, newline, color).0 + (if Expected(ps, think, newline, color).2 then [] else [('\n', false)]), false, true)
  {
    assert (ps + [Opened])[..|ps|] == ps == (ps + [Closed])[..|ps|];
    var shown := Expected(ps, think, newline, color).0;
    assert shown + [] == shown;
    if ps != [] { ExpectedRun(ps[..|ps| - 1], think, newline, color); }
  }

  lemma {:induction false} ExpectedParts(a: seq<Piece>, b: seq<Piece>, think: bool, newline: bool, color: bool)
    ensures var x := Expected(a, think, newline, color); var y := Expected(b, x.1, x.2, color);
      Expected(a + b, think, newline, color) == (x.0 + y.0, y.1, y.2)
    decreases |b|
  {
    var x := Expected(a, think, newline, color);
    if b == [] {
      assert a + b == a && x.0 + [] == x.0;
    } else {
      var front, last := b[..|b| - 1], b[|b| - 1];
      ExpectedParts(a, front, think, newline, color);
      var y := Expected(front, x.1, x.2, color);
      assert (a + b)[..|a + b| - 1] == a + front && (a + b)[|a + b| - 1] == last;
      Regroup(x.0, y.0, [('\n', false)]);
      if last.Char? { Regroup(x.0, y.0, [(last.c, y.1 && color)]); }
    }
  }

  lemma SeenSnoc(out: seq<Mark>, m: Mark)
    ensures Seen(out + [m]) == match m
      case Grey => (Seen(out).0, true)
      case Plain => (Seen(out).0, false)
      case Out(c) => (Seen(out).0 + [(c, Seen(out).1)], Seen(out).1)
  {
    assert (out + [m])[..|out|] == out;
  }

  /** What is seen is what was meant: with colour exactly the thinking is grey, and
      without it nothing is. */
  lemma {:induction false} ShowsExpected(ps: seq<Piece>, think: bool, color: bool)
    ensures var p := ShowAll(Screen(think, false, true, []), color, ps); var e := Expected(ps, think, true, color);
      && Seen(p.out) == (e.0, p.grey) && p.inThink == e.1 && p.newline == e.2 && (p.grey ==> p.inThink && color)
    decreases |ps|
  {
    if ps != [] {
      var front, last := ps[..|ps| - 1], ps[|ps| - 1];
      ShowsExpected(front, think, color);
      var start := Screen(think, false, true, []);
      ShowAllAppend(start, color, front, [last]);
      assert front + [last] == ps;
      var p := ShowAll(start, color, front);
      assert ShowAll(p, color, [last]) == Show(p, color, last) by { assert [last][1..] == []; }
      ShowOne(p, color, last);
    }
  }

  lemma ShowOne(p: Screen, color: bool, piece: Piece)
    requires Seen(p.out).1 == p.grey && (p.grey ==> p.inThink && color)
    ensures var q := Show(p, color, piece);
      && Seen(q.out).1 == q.grey && (q.grey ==> q.inThink && color)
      && Seen(q.out).0 == Seen(p.out).0 + (match piece
           case Opened => []
           case Closed => if p.newline then [] else [('\n', false)]
           case Char(c) => [(c, p.inThink && color)])
  {
    match piece
    case Opened =>
    case Closed =>
      SeenSnoc(p.out, Plain);
      SeenSnoc(p.out, Out('\n'));
      SeenSnoc(p.out + [Plain], Out('\n'));
    case Char(c) =>
      SeenSnoc(p.out, Grey);
      SeenSnoc(p.out, Out(c));
      SeenSnoc(p.out + [Grey], Out(c));
  }

  /** Characters written as they are. */
  function Raw(s: string): (out: seq<Mark>)
    ensures |out| == |s|
  {
    seq(|s|, i requires 0 <= i < |s| => Out(s[i]))
  }

  /** The screen after text written without looking for tags. */
  function Verbatim(p: Screen, s: string): Screen {
    if s == "" then p else p.(newline := s[|s| - 1] == '\n', out := p.out + Raw(s))
  }

  lemma VerbatimOn(p: Screen, a: string, b: string)
    ensures Verbatim(Verbatim(p, a), b) == Verbatim(p, a + b)
  {
    assert Raw(a + b) == Raw(a) + Raw(b);
    if b == "" { assert a + b == a; }
    if a == "" { assert a + b == b; }
    assert p.out + Raw(a) + Raw(b) == p.out + (Raw(a) + Raw(b));
  }

  /** Cells of plain text. */
  function Cells(s: string): (r: seq<(char, bool)>)
    ensures |r| == |s|
  {
    seq(|s|, i requires 0 <= i < |s| => (s[i], false))
  }

  lemma {:induction false} SeenRaw(s: string)
    ensures Seen(Raw(s)) == (Cells(s), false)
  {
    if s != "" {
      var front := s[..|s| - 1];
      SeenRaw(front);
      assert Raw(s) == Raw(front) + [Out(s[|s| - 1])];
      SeenSnoc(Raw(front), Out(s[|s| - 1]));
      assert Cells(s) == Cells(front) + [(s[|s| - 1], false)];
    }
  }

  /** The command line's token printer. */
  class TokenPrinter {
    const useColor: bool
    const formatThinking: bool
    var inThink: bool
    var colorOpen: bool
    var lastOutputNewline: bool
    var out: seq<Mark>
    var pending: string
    /** Everything written so far, and the screen it started with. */
    ghost var fed: string
    ghost var done: seq<Piece>
    ghost const start: Screen

    ghost function Now(): Screen
      reads this
    {
      Screen(inThink, colorOpen, lastOutputNewline, out)
    }

    ghost predicate Valid()
      reads this
    {
      if formatThinking then
        |pending| < PENDING_MAX && Carried(fed, done, pending) && Now() == ShowAll(start, useColor, done)
      else pending == "" && Now() == Verbatim(start, fed)
    }

    /** What is shown once everything has been read. */
    ghost function Whole(): Screen
      reads this
    {
      if formatThinking then
        var whole := ShowAll(start, useColor, Pieces(fed));
        if useColor && whole.grey then whole.(grey := false, out := whole.out + [Plain]) else whole
      else Verbatim(start, fed)
    }

    constructor (think: bool, color: bool, format: bool)
      ensures Valid() && fed == "" && start == Screen(think, false, true, []) && useColor == color && formatThinking == format
    {
      useColor, formatThinking, inThink, colorOpen, lastOutputNewline, out, pending := color, format, think, false, true, [], "";
      fed, done := "", [];
      start := Screen(think, false, true, []);
      new;
      assert forall t: string :: "" + t == t && [] + Pieces(t) == Pieces(t);
    }

    method SetGrey()
      modifies this`out, this`colorOpen
      ensures Now() == if useColor && !old(colorOpen) then old(Now()).(grey := true, out := old(out) + [Grey]) else old(Now())
    {
      if useColor && !colorOpen {
        out := out + [Grey];
        colorOpen := true;
      }
    }

    method ResetColor()
      modifies this`out, this`colorOpen
      ensures Now() == if useColor && old(colorOpen) then old(Now()).(grey := false, out := old(out) + [Plain]) else old(Now())
    {
      if useColor && colorOpen {
        out := out + [Plain];
        colorOpen := false;
      }
    }

    /** The loop's body: a tag, a character, or a tail to hold back. */
    method Turn(cur: string, finish: bool) returns (used: nat, ghost piece: Piece)
      requires cur != "" && pending == ""
      modifies this`inThink, this`colorOpen, this`lastOutputNewline, this`out, this`pending
      ensures used <= |cur|
      ensures used == 0 ==> Now() == old(Now()) && Scan(cur, finish) == ([], cur) && pending == cur
      ensures used > 0 ==> pending == "" && Now() == Show(old(Now()), useColor, piece)
      ensures used > 0 ==> Scan(cur, finish) == ([piece] + Scan(cur[used..], finish).0, Scan(cur[used..], finish).1)
    {
      hide Scan, OPEN, CLOSE;
      Tags();
      ScanStep(cur, finish);
      if OPEN <= cur {
        inThink := true;
        return |OPEN|, Opened;
      }
      if CLOSE <= cur {
        inThink := false;
        ResetColor();
        if !lastOutputNewline {
          out := out + [Out('\n')];
          lastOutputNewline := true;
        }
        return |CLOSE|, Closed;
      }
      piece := Char(cur[0]);
      if !finish && cur[0] == '<' && (Partial(cur, OPEN) || Partial(cur, CLOSE)) {
        if |cur| < PENDING_MAX { pending := cur; }
        return 0, piece;
      }
      if inThink { SetGrey(); }
      out := out + [Out(cur[0])];
      lastOutputNewline := cur[0] == '\n';
      return 1, piece;
    }

    /** token_printer_process: the loop over what was pending and what is new. */
    method Process(text: string, finish: bool)
      requires |pending| < PENDING_MAX
      modifies this`inThink, this`colorOpen, this`lastOutputNewline, this`out, this`pending
      ensures var r := Scan(old(pending) + text, finish);
        Now() == ShowAll(old(Now()), useColor, r.0) && pending == r.1 && |pending| < PENDING_MAX
    {
      hide Show, Scan, ShowAll;
      var buf := pending + text;
      ghost var was, all, shown := Now(), Scan(buf, finish), [];
      pending := "";
      var i := 0;
      assert buf[0..] == buf;
      ShowNone(was, useColor);
      while i < |buf|
        invariant 0 <= i <= |buf| && pending == ""
        invariant var rest := Scan(buf[i..], finish); all.0 == shown + rest.0 && all.1 == rest.1
        invariant Now() == ShowAll(was, useColor, shown)
      {
        var used, piece := Turn(buf[i..], finish);
        if used == 0 {
          assert shown + [] == shown;
          return;
        }
        assert buf[i..][used..] == buf[i + used..];
        i := i + used;
        ShowNext(was, useColor, shown, piece);
        assert shown + ([piece] + Scan(buf[i..], finish).0) == shown + [piece] + Scan(buf[i..], finish).0;
        shown := shown + [piece];
      }
      ScanNothing(finish);
      assert buf[i..] == "" && shown + [] == shown;
    }

    /** token_printer_write_text. */
    method Write(text: string)
      requires Valid()
      modifies this
      ensures Valid() && fed == old(fed) + text
    {
      hide Scan, ShowAll, Verbatim, Raw;
      if formatThinking {
        ghost var was, p := done, pending;
        CarriedOn(fed, done, pending, text);
        ShowAllAppend(start, useColor, done, Scan(pending + text, false).0);
        Process(text, false);
        done := was + Scan(p + text, false).0;
      } else {
        VerbatimOn(start, fed, text);
        Fwrite(text);
      }
      fed := fed + text;
    }

    /** fwrite of a whole token. */
    method Fwrite(text: string)
      modifies this`out, this`lastOutputNewline
      ensures Now() == Verbatim(old(Now()), text)
    {
      if text != "" {
        out := out + Raw(text);
        lastOutputNewline := text[|text| - 1] == '\n';
      }
    }

    /** token_printer_finish: the screen is that of the whole text read at once,
        with the colour off. */
    method Finish()
      requires Valid()
      modifies this
      ensures Now() == old(Whole()) && pending == ""
    {
      hide Scan, ShowAll, Verbatim;
      if formatThinking {
        CarriedOn(fed, done, pending, "");
        assert fed + "" == fed && pending + "" == pending;
        ShowAllAppend(start, useColor, done, Scan(pending, true).0);
        Process("", true);
        ResetColor();
      }
    }

    /** generation_done: the last line is ended. */
    method Done()
      requires Valid()
      modifies this
      ensures var whole := old(Whole());
        Now() == if whole.newline then whole else whole.(newline := true, out := whole.out + [Out('\n')])
    {
      Finish();
      if !lastOutputNewline {
        out := out + [Out('\n')];
        lastOutputNewline := true;
      }
    }
  }

  lemma ScanNothing(finish: bool)
    ensures Scan("", finish) == ([], "")
  {
  }

  lemma ShowNone(p: Screen, use: bool)
    ensures ShowAll(p, use, []) == p
  {
  }

  lemma ShowNext(p: Screen, use: bool, shown: seq<Piece>, piece: Piece)
    ensures ShowAll(p, use, shown + [piece]) == Show(ShowAll(p, use, shown), use, piece)
  {
    hide Show;
    ShowAllAppend(p, use, shown, [piece]);
    assert [piece][1..] == [];
  }

  /** The characters of a generation and which of them are grey. */
  function Shown(text: string, think: bool, color: bool, format: bool): seq<(char, bool)> {
    if format then
      var e := Expected(Pieces(text), think, true, color);
      if e.2 then e.0 else e.0 + [('\n', false)]
    else if text == "" || text[|text| - 1] == '\n' then Cells(text)
    else Cells(text) + [('\n', false)]
  }

  /** What is seen of the finished screen. */
  lemma WholeShown(text: string, think: bool, color: bool, format: bool, whole: Screen, end: Screen)
    requires var start := Screen(think, false, true, []);
      whole == if !format then Verbatim(start, text)
               else
                 var all := ShowAll(start, color, Pieces(text));
                 if color && all.grey then all.(grey := false, out := all.out + [Plain]) else all
    requires end == if whole.newline then whole else whole.(newline := true, out := whole.out + [Out('\n')])
    ensures Seen(end.out) == (Shown(text, think, color, format), false)
  {
    hide Expected, ShowAll, Pieces, Seen;
    var start := Screen(think, false, true, []);
    SeenSnoc(whole.out, Out('\n'));
    if format {
      ShowsExpected(Pieces(text), think, color);
      SeenSnoc(ShowAll(start, color, Pieces(text)).out, Plain);
    } else {
      SeenRaw(text);
      assert [] + Raw(text) == Raw(text);
      if text == "" { assert Raw(text) == []; }
    }
  }

  /** However the text is cut into tokens the reader sees every character of it: with
      formatting those outside the tags, grey exactly while thinking if there is
      colour; without formatting all of them as they are. */
  method PrintTokens(tokens: seq<string>, think: bool, color: bool, format: bool) returns (out: seq<Mark>)
    ensures Seen(out) == (Shown(Joined(tokens), think, color, format), false)
  {
    hide Expected, ShowAll, Verbatim, Seen, Shown, TokenPrinter.Valid;
    var p := new TokenPrinter(think, color, format);
    assert tokens[..0] == [];
    for i := 0 to |tokens|
      invariant p.Valid() && p.fed == Joined(tokens[..i]) && fresh(p)
      invariant p.start == Screen(think, false, true, []) && p.useColor == color && p.formatThinking == format
    {
      p.Write(tokens[i]);
      assert tokens[..i + 1][..i] == tokens[..i];
    }
    assert tokens[..|tokens|] == tokens;
    ghost var whole := p.Whole();
    p.Done();
    WholeShown(Joined(tokens), think, color, format, whole, p.Now());
    out := p.out;
  }

  /** The evaluator's stream: text and a style for every byte of it. */
  function Styled(ps: seq<Piece>, think: bool): (r: (string, seq<bool>, bool))
    ensures |r.0| == |r.1|
  {
    if ps == [] then ("", [], think)
    else
      var before := Styled(ps[..|ps| - 1], think);
      match ps[|ps| - 1]
      case Opened => (before.0, before.1, true)
      case Closed => (before.0 + "\n", before.1 + [false], false)
      case Char(c) => (before.0 + [c], before.1 + [before.2], before.2)
  }

  lemma StyledNext(ps: seq<Piece>, think: bool, piece: Piece)
    ensures Styled(ps + [piece], think) == (var before := Styled(ps, think);
      match piece
      case Opened => (before.0, before.1, true)
      case Closed => (before.0 + "\n", before.1 + [false], false)
      case Char(c) => (before.0 + [c], before.1 + [before.2], before.2))
  {
    assert (ps + [piece])[..|ps|] == ps;
  }

  /** What comes behind is styled from where what came before left off. */
  lemma {:induction false} StyledParts(a: seq<Piece>, b: seq<Piece>, think: bool)
    ensures var x := Styled(a, think); var y := Styled(b, x.2);
      Styled(a + b, think) == (x.0 + y.0, x.1 + y.1, y.2)
    decreases |b|
  {
    hide Styled;
    StyledOne(Styled(a, think).2);
    if b == [] {
      assert a + b == a;
      assert Styled(a, think).0 + "" == Styled(a, think).0 && Styled(a, think).1 + [] == Styled(a, think).1;
    } else {
      var front, last := b[..|b| - 1], b[|b| - 1];
      StyledParts(a, front, think);
      assert a + b == a + front + [last] && b == front + [last];
      StyledNext(a + front, think, last);
      StyledNext(front, Styled(a, think).2, last);
      var x := Styled(a, think);
      var y := Styled(front, x.2);
      match last {
        case Opened =>
        case Closed =>
          Regroup(x.0, y.0, "\n");
          Regroup(x.1, y.1, [false]);
        case Char(c) =>
          Regroup(x.0, y.0, [c]);
          Regroup(x.1, y.1, [y.2]);
      }
    }
  }

  /** Nothing shows nothing; an opening tag shows nothing and starts thinking, a
      closing one ends it and shows a newline. */
  lemma StyledOne(think: bool)
    ensures Styled([], think) == ("", [], think)
    ensures Styled([Opened], think) == ("", [], true) && Styled([Closed], think) == ("\n", [false], false)
  {
    StyledNext([], think, Opened);
    StyledNext([], think, Closed);
    assert [] + [Opened] == [Opened] && [] + [Closed] == [Closed] && [] + [false] == [false] && "" + "\n" == "\n";
  }

  /** Characters no tag interrupts all have the style they start with. */
  lemma {:induction false} StyledRun(ps: seq<Piece>, think: bool)
    requires forall i :: 0 <= i < |ps| ==> ps[i].Char?
    ensures var r := Styled(ps, think);
      && |r.0| == |ps| && r.2 == think && forall i :: 0 <= i < |ps| ==> r.0[i] == ps[i].c && r.1[i] == think
  {
    if ps != [] { StyledRun(ps[..|ps| - 1], think); }
  }

  class EvalStream {
    var stream: string
    var styles: seq<bool>
    var inThink: bool
    var pending: string
    ghost var fed: string
    ghost var done: seq<Piece>
    ghost const think: bool

    ghost predicate Valid()
      reads this
    {
      && |pending| < PENDING_MAX && Carried(fed, done, pending)
      && (stream, styles, inThink) == Styled(done, think)
    }

    /** tui_reset_stream. */
    constructor (think: bool)
      ensures Valid() && fed == "" && this.think == think
    {
      stream, styles, inThink, pending := "", [], think, "";
      fed, done := "", [];
      this.think := think;
      new;
      assert forall t: string :: "" + t == t && [] + Pieces(t) == Pieces(t);
    }

    /** stream_append_visible. */
    method AppendVisible(s: string)
      modifies this`stream, this`styles
      ensures stream == old(stream) + s && |styles| == old(|styles|) + |s|
      ensures styles[..old(|styles|)] == old(styles) && forall i :: old(|styles|) <= i < |styles| ==> styles[i] == inThink
    {
      stream := stream + s;
      var style := inThink;
      styles := styles + seq(|s|, _ => style);
    }

    method Turn(cur: string, finish: bool) returns (used: nat, ghost piece: Piece)
      requires cur != "" && pending == "" && (stream, styles, inThink) == Styled(done, think)
      modifies this`inThink, this`stream, this`styles, this`pending, this`done
      ensures used <= |cur| && (stream, styles, inThink) == Styled(done, think)
      ensures used == 0 ==> done == old(done) && Scan(cur, finish) == ([], cur) && pending == cur
      ensures used > 0 ==> pending == "" && done == old(done) + [piece]
      ensures used > 0 ==> Scan(cur, finish) == ([piece] + Scan(cur[used..], finish).0, Scan(cur[used..], finish).1)
    {
      hide Scan, OPEN, CLOSE, Styled;
      Tags();
      ScanStep(cur, finish);
      ghost var was := styles;
      if OPEN <= cur {
        StyledNext(done, think, Opened);
        inThink := true;
        done := done + [Opened];
        return |OPEN|, Opened;
      }
      if CLOSE <= cur {
        StyledNext(done, think, Closed);
        inThink := false;
        AppendVisible("\n");
        assert styles == was + [false];
        done := done + [Closed];
        return |CLOSE|, Closed;
      }
      piece := Char(cur[0]);
      if !finish && cur[0] == '<' && (Partial(cur, OPEN) || Partial(cur, CLOSE)) {
        if |cur| < PENDING_MAX { pending := cur; }
        return 0, piece;
      }
      StyledNext(done, think, piece);
      AppendVisible([cur[0]]);
      assert styles == was + [inThink];
      done := done + [piece];
      return 1, piece;
    }

    /** stream_append_token_text: after every call the buffers are as long as each
        other, and a final call leaves what reading the whole text gives. */
    method AppendTokenText(text: string, finish: bool)
      requires Valid()
      modifies this
      ensures fed == old(fed) + text && |stream| == |styles|
      ensures !finish ==> Valid()
      ensures finish ==> pending == "" && (stream, styles, inThink) == Styled(Pieces(fed), think)
    {
      hide Scan, Styled, Carried, Pieces;
      var buf := pending + text;
      CarriedOn(fed, done, pending, text);
      ghost var all, shown, was := Scan(buf, finish), [], done;
      fed := fed + text;
      pending := "";
      var i := 0;
      assert buf[0..] == buf && done + [] == done;
      while i < |buf|
        invariant 0 <= i <= |buf| && pending == "" && fed == old(fed) + text
        invariant var rest := Scan(buf[i..], finish); all.0 == shown + rest.0 && all.1 == rest.1
        invariant done == was + shown && (stream, styles, inThink) == Styled(done, think)
      {
        var used, piece := Turn(buf[i..], finish);
        if used == 0 {
          assert shown + [] == shown;
          return;
        }
        assert buf[i..][used..] == buf[i + used..];
        i := i + used;
        assert shown + ([piece] + Scan(buf[i..], finish).0) == shown + [piece] + Scan(buf[i..], finish).0;
        assert was + shown + [piece] == was + (shown + [piece]);
        shown := shown + [piece];
      }
      ScanNothing(finish);
      assert buf[i..] == "" && shown + [] == shown;
    }
  }
}
