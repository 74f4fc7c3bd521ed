/** The evaluator's trace: counted blocks written so that a reader finds the case
    boundaries and every model output again, whatever the texts contain.  Bytes
    are written as characters, positions are relative to the text at hand, and -1
    stands for a null pointer. */
module Trace {
  import opened Basics

  const BEGIN := "_BEGIN bytes="
  const CASE := "===== CASE "
  const OUTPUT := "MODEL_OUTPUT"
  const OUTPUT_BEGIN := "MODEL_OUTPUT_BEGIN"
  const OUTPUT_END := "MODEL_OUTPUT_END"
  const LABEL_MAX := 96
  const MAX64 := 0xFFFF_FFFF_FFFF_FFFF

  datatype Option<T> = None | Some(value: T)

  // ---- numbers ----

  predicate Blank(c: char) { c == ' ' || '\t' <= c <= '\r' }

  function Leading(s: string, digits: bool): (n: nat)
    ensures n <= |s|
  {
    if s != "" && (if digits then Digit(s[0]) else Blank(s[0])) then 1 + Leading(s[1..], digits) else 0
  }

  /** strtoull in base ten: the value and the bytes used, none when there is no digit. */
  function Strtoull(s: string): (r: (int, nat))
    ensures r.1 <= |s|
  {
    var b := Leading(s, false);
    var sign := if b < |s| && (s[b] == '-' || s[b] == '+') then 1 else 0;
    var d := Leading(s[b + sign..], true);
    var v := Value(s[b + sign..b + sign + d]);
    if d == 0 then (0, 0)
    else (if v > MAX64 then MAX64 else if s[b] == '-' then (MAX64 + 1 - v) % (MAX64 + 1) else v, b + sign + d)
  }

  lemma {:induction false} DecimalDigits(n: nat, rest: string)
    requires rest == "" || !Digit(rest[0])
    ensures Leading(Decimal(n) + rest, true) == |Decimal(n)|
    ensures Value(Decimal(n)) == n && Digit(Decimal(n)[0])
    decreases n, 1
  {
    DigitString(n);
    AllDigits(Decimal(n), rest);
  }

  lemma {:induction false} AllDigits(s: string, rest: string)
    requires (rest == "" || !Digit(rest[0])) && forall i :: 0 <= i < |s| ==> Digit(s[i])
    ensures Leading(s + rest, true) == |s|
  {
    if s == "" {
      assert s + rest == rest;
    } else {
      assert (s + rest)[1..] == s[1..] + rest;
      AllDigits(s[1..], rest);
    }
  }

  /** A count is read back. */
  lemma ReadCount(n: nat, rest: string)
    requires n <= MAX64
    ensures Strtoull(Decimal(n) + "\n" + rest) == (n, |Decimal(n)|)
  {
    hide Decimal, Value, Leading;
    var d, after := Decimal(n), "\n" + rest;
    var s := d + after;
    assert s == Decimal(n) + "\n" + rest;
    DecimalDigits(n, after);
    assert s[0] == d[0];
    NoBlanks(s);
    assert s[0..] == s && s[..|d|] == d;
  }

  lemma NoBlanks(s: string)
    requires s != "" && Digit(s[0])
    ensures Leading(s, false) == 0
  {
  }

  // ---- searching ----

  /** Where the first newline is, or the end. */
  function LineEnd(s: string): (n: nat)
    ensures n <= |s| && (n < |s| ==> s[n] == '\n')
  {
    if s == "" || s[0] == '\n' then 0 else 1 + LineEnd(s[1..])
  }

  /** Where the first occurrence of `needle` is. */
  function Find(s: string, needle: string): (i: int)
    ensures -1 <= i && (i >= 0 ==> i + |needle| <= |s| && s[i..i + |needle|] == needle)
  {
    if needle <= s then 0
    else if s == "" then -1
    else
      var r := Find(s[1..], needle);
      if r < 0 then -1
      else
        assert s[1..][r..r + |needle|] == s[r + 1..r + 1 + |needle|];
        r + 1
  }

  function Shift(n: nat, r: int): int {
    if r < 0 then -1 else n + r
  }

  /** bounded_strstr. */
  method BoundedStrstr(s: string, needle: string) returns (i: int)
    ensures i == Find(s, needle)
  {
    if |needle| == 0 { return 0; }
    var p := 0;
    assert s[0..] == s;
    while p + |needle| <= |s|
      invariant 0 <= p <= |s| && Find(s, needle) == Shift(p, Find(s[p..], needle))
    {
      if s[p..p + |needle|] == needle {
        assert needle <= s[p..];
        return p;
      }
      assert !(needle <= s[p..]) by { assert s[p..][..|needle|] == s[p..p + |needle|]; }
      assert s[p..][1..] == s[p + 1..];
      p := p + 1;
    }
    Short(s[p..], needle);
    return -1;
  }

  lemma {:induction false} Short(s: string, needle: string)
    requires |s| < |needle|
    ensures Find(s, needle) == -1
  {
    if s != "" { Short(s[1..], needle); }
  }

  lemma {:induction false} LineEndAt(l: string, s: string)
    requires '\n' !in l
    ensures LineEnd(l + "\n" + s) == |l|
  {
    if l == "" {
      assert l + "\n" + s == "\n" + s;
    } else {
      assert (l + "\n" + s)[1..] == l[1..] + "\n" + s;
      assert (l + "\n" + s)[0] == l[0] && l[0] in l;
      LineEndAt(l[1..], s);
    }
  }

  // ---- the writer ----

  /** A counted block. */
  function Block(tag: string, text: string): string {
    tag + BEGIN + Decimal(|text|) + "\n" + Body(tag, text)
  }

  function Body(tag: string, text: string): string {
    text + (if text == "" || text[|text| - 1] == '\n' then "" else "\n") + (tag + "_END" + "\n")
  }

  function Lines(ls: seq<string>): string {
    if ls == [] then "" else ls[0] + "\n" + Lines(ls[1..])
  }

  datatype Case = Case(header: string, meta: seq<string>, system: string, question: string, output: string)

  function Blocks(c: Case): string {
    Block("SYSTEM_PROMPT", c.system) + (Block("QUESTION_PROMPT", c.question) + (Block(OUTPUT, c.output) + "\n"))
  }

  function Written(c: Case): string {
    c.header + "\n" + (Lines(c.meta) + Blocks(c))
  }

  function AllWritten(cs: seq<Case>): string {
    if cs == [] then "" else Written(cs[0]) + AllWritten(cs[1..])
  }

  /** A metadata line that looks like none of the markers. */
  predicate Avoids(l: string) {
    '\n' !in l && Find(l, BEGIN) < 0 && !(CASE <= l) && !(OUTPUT_BEGIN <= l)
  }

  predicate AllAvoid(ls: seq<string>) {
    forall i :: 0 <= i < |ls| ==> Avoids(ls[i])
  }

  /** Headers are case lines, metadata avoids the markers, and sizes fit the
      machine; the texts are arbitrary. */
  predicate Writable(c: Case) {
    && CASE <= c.header && '\n' !in c.header && Find(c.header, BEGIN) < 0 && AllAvoid(c.meta)
    && |c.system| <= MAX64 && |c.question| <= MAX64 && |c.output| <= MAX64
  }

  class TraceFile {
    var out: string

    constructor ()
      ensures out == ""
    {
      out := "";
    }

    method Put(s: string)
      modifies this
      ensures out == old(out) + s
    {
      out := out + s;
    }

    /** trace_write_block. */
    method WriteBlock(tag: string, text: string)
      modifies this
      ensures out == old(out) + Block(tag, text)
    {
      ghost var was := out;
      var len := |text|;
      Put(tag + BEGIN + Decimal(len) + "\n");
      if len > 0 {
        Put(text);
        if text[len - 1] != '\n' { Put("\n"); }
      }
      Put(tag + "_END" + "\n");
      assert out == was + Block(tag, text);
    }

    method WriteLines(ls: seq<string>)
      modifies this
      ensures out == old(out) + Lines(ls)
    {
      assert ls[0..] == ls;
      for i := 0 to |ls|
        invariant out + Lines(ls[i..]) == old(out) + Lines(ls)
      {
        assert ls[i..][1..] == ls[i + 1..];
        ghost var rest := Lines(ls[i + 1..]);
        assert out + (ls[i] + "\n" + rest) == out + (ls[i] + "\n") + rest;
        Put(ls[i] + "\n");
      }
      assert ls[|ls|..] == [];
    }

    /** trace_write_case. */
    method WriteCase(c: Case)
      modifies this
      ensures out == old(out) + Written(c)
    {
      hide Block, Lines;
      Put(c.header + "\n");
      WriteLines(c.meta);
      WriteBlock("SYSTEM_PROMPT", c.system);
      WriteBlock("QUESTION_PROMPT", c.question);
      WriteBlock(OUTPUT, c.output);
      Put("\n");
    }
  }

  // ---- the reader ----

  /** Where the next line starts. */
  function NextLine(s: string): (n: nat)
    ensures n <= |s| && (s != "" ==> n > 0)
  {
    if LineEnd(s) < |s| then LineEnd(s) + 1 else |s|
  }

  /** Behind `n` bytes of content and perhaps a newline, where the line after the
      end marker starts, or -1. */
  function AfterMarker(content: string, n: nat, endMarker: string): (i: int)
    requires n <= |content|
    ensures i == -1 || 0 <= i <= |content|
  {
    var m := if n < |content| && content[n] == '\n' then n + 1 else n;
    if !(endMarker <= content[m..]) then -1
    else
      var after := content[m + |endMarker|..];
      m + |endMarker| + NextLine(after)
  }

  /** trace_skip_counted_block on the line `s` begins with: where the line after the
      block starts, or -1 when this is no block. */
  function Skip(s: string): (n: int)
    ensures n == -1 || 0 < n <= |s|
  {
    var le := LineEnd(s);
    var b := Find(s[..le], BEGIN);
    if b <= 0 || b > LABEL_MAX then -1
    else
      var (declared, used) := Strtoull(s[b + |BEGIN|..]);
      var content := NextLine(s);
      if used == 0 || b + |BEGIN| + used > le || declared < 0 || declared > |s| - content then -1
      else
        var i := AfterMarker(s[content..], declared, s[..b] + "_END");
        if i < 0 then -1 else content + i
  }

  /** trace_find_next_case. */
  function NextCase(s: string): (i: int)
    ensures -1 <= i < |s| || i == -1
    decreases |s|
  {
    if s == "" then -1
    else if Skip(s) > 0 then Shift(Skip(s), NextCase(s[Skip(s)..]))
    else if CASE <= s[..LineEnd(s)] then 0
    else Shift(NextLine(s), NextCase(s[NextLine(s)..]))
  }

  /** trace_find_block_begin for the model output. */
  function OutputBlock(s: string): (i: int)
    ensures -1 <= i < |s| || i == -1
    decreases |s|
  {
    if s == "" then -1
    else if OUTPUT_BEGIN <= s[..LineEnd(s)] then 0
    else if Skip(s) > 0 then Shift(Skip(s), OutputBlock(s[Skip(s)..]))
    else Shift(NextLine(s), OutputBlock(s[NextLine(s)..]))
  }

  /** trace_copy_model_output on the text of one case. */
  function CopyOutput(s: string): (r: Option<string>) {
    var i := OutputBlock(s);
    if i < 0 then None
    else
      var u := s[i..];
      var le := LineEnd(u);
      if le == |u| then None
      else
        var content := u[le + 1..];
        var b := Find(u[..le], "bytes=");
        if b >= 0 then
          var (declared, used) := Strtoull(u[b + 6..]);
          if used == 0 || b + 6 + used > le || declared < 0 || declared > |content| then None
          else
            var marker := if declared < |content| && content[declared] == '\n' then declared + 1 else declared;
            if OUTPUT_END <= content[marker..] then Some(content[..declared]) else None
        else
          var finish := Find(content, "\n" + OUTPUT_END);
          if finish < 0 then None else Some(content[..finish])
  }

  method FindNextCase(s: string) returns (i: int)
    ensures i == NextCase(s)
  {
    hide Skip, LineEnd, NextCase, OutputBlock;
    NothingLeft();
    var p := 0;
    assert s[0..] == s && s[|s|..] == "";
    while p < |s|
      invariant 0 <= p <= |s| && NextCase(s) == Shift(p, NextCase(s[p..]))
      decreases |s| - p
    {
      var rest := s[p..];
      ScanStep(rest);
      var skip := Skip(rest);
      if skip > 0 {
        assert rest[skip..] == s[p + skip..];
        p := p + skip;
        continue;
      }
      if CASE <= rest[..LineEnd(rest)] { return p; }
      assert rest[NextLine(rest)..] == s[p + NextLine(rest)..];
      p := p + NextLine(rest);
    }
    return -1;
  }

  /** One turn of each scan. */
  lemma ScanStep(s: string)
    requires s != ""
    ensures Skip(s) > 0 ==> NextCase(s) == Shift(Skip(s), NextCase(s[Skip(s)..]))
    ensures Skip(s) <= 0 ==>
      NextCase(s) == if CASE <= s[..LineEnd(s)] then 0 else Shift(NextLine(s), NextCase(s[NextLine(s)..]))
    ensures OUTPUT_BEGIN <= s[..LineEnd(s)] ==> OutputBlock(s) == 0
    ensures !(OUTPUT_BEGIN <= s[..LineEnd(s)]) ==>
      OutputBlock(s) == if Skip(s) > 0 then Shift(Skip(s), OutputBlock(s[Skip(s)..]))
                        else Shift(NextLine(s), OutputBlock(s[NextLine(s)..]))
  {
    hide Skip, LineEnd, NextLine;
  }

  lemma NothingLeft()
    ensures NextCase("") == -1 && OutputBlock("") == -1
  {
  }

  method FindOutputBlock(s: string) returns (i: int)
    ensures i == OutputBlock(s)
  {
    hide Skip, LineEnd, NextCase, OutputBlock;
    NothingLeft();
    var p := 0;
    assert s[0..] == s && s[|s|..] == "";
    while p < |s|
      invariant 0 <= p <= |s| && OutputBlock(s) == Shift(p, OutputBlock(s[p..]))
      decreases |s| - p
    {
      var rest := s[p..];
      ScanStep(rest);
      if OUTPUT_BEGIN <= rest[..LineEnd(rest)] { return p; }
      var skip := Skip(rest);
      if skip > 0 {
        assert rest[skip..] == s[p + skip..];
        p := p + skip;
        continue;
      }
      assert rest[NextLine(rest)..] == s[p + NextLine(rest)..];
      p := p + NextLine(rest);
    }
    return -1;
  }

  /** The regrade loop: the text of each case it cuts out. */
  function CaseTexts(s: string): (r: seq<string>)
    decreases |s|
  {
    var i := NextCase(s);
    if i < 0 then []
    else
      var u := s[i..];
      var head := NextLine(u);
      var next := NextCase(u[head..]);
      var end := if next < 0 then |u| else head + next;
      [u[..end]] + CaseTexts(u[end..])
  }

  method Regrade(text: string) returns (cases: seq<string>)
    ensures cases == CaseTexts(text)
  {
    hide NextCase, CaseTexts;
    cases := [];
    var start := 0;
    assert text[0..] == text;
    while true
      invariant 0 <= start <= |text| && cases + CaseTexts(text[start..]) == CaseTexts(text)
      decreases |text| - start
    {
      var rest := text[start..];
      CaseTextsStep(rest);
      var i := FindNextCase(rest);
      if i < 0 { break; }
      var u := rest[i..];
      var head := NextLine(u);
      var next := FindNextCase(u[head..]);
      var end := if next < 0 then |u| else head + next;
      Regroup(cases, [u[..end]], CaseTexts(u[end..]));
      assert u[end..] == text[start + i + end..];
      cases := cases + [u[..end]];
      start := start + i + end;
    }
  }

  lemma CaseTextsStep(s: string)
    ensures NextCase(s) < 0 ==> CaseTexts(s) == []
    ensures NextCase(s) >= 0 ==>
      var u := s[NextCase(s)..];
      var next := NextCase(u[NextLine(u)..]);
      var end := if next < 0 then |u| else NextLine(u) + next;
      CaseTexts(s) == [u[..end]] + CaseTexts(u[end..])
  {
    hide NextCase;
  }

  // ---- the reader undoes the writer ----

  lemma PlainLine(l: string, s: string)
    requires '\n' !in l && Find(l, BEGIN) < 0
    ensures var t := l + "\n" + s;
      LineEnd(t) == |l| && t[..|l|] == l && NextLine(t) == |l| + 1 && t[|l| + 1..] == s && Skip(t) == -1
  {
    hide LineEnd, Find, Strtoull;
    LineEndAt(l, s);
    var t := l + "\n" + s;
    assert t[..|l|] == l;
  }

  /** Lines that avoid the markers are passed over. */
  lemma {:induction false} PastLines(ls: seq<string>, s: string)
    requires AllAvoid(ls)
    ensures NextCase(Lines(ls) + s) == Shift(|Lines(ls)|, NextCase(s))
    ensures OutputBlock(Lines(ls) + s) == Shift(|Lines(ls)|, OutputBlock(s))
  {
    hide Skip, LineEnd, Find;
    if ls == [] {
      assert "" + s == s;
    } else {
      assert Avoids(ls[0]);
      PastLines(ls[1..], s);
      var rest := Lines(ls[1..]) + s;
      PlainLine(ls[0], rest);
      assert Lines(ls) + s == ls[0] + "\n" + rest;
      assert |Lines(ls)| == |ls[0]| + 1 + |Lines(ls[1..])|;
    }
  }

  /** A label in which no "_B" could start the count early. */
  predicate Taggable(l: string) {
    && 0 < |l| <= LABEL_MAX && '\n' !in l
    && forall i :: 0 <= i < |l| && l[i] == '_' ==> i + 1 < |l| && l[i + 1] != 'B'
  }

  lemma {:induction false} FindAfter(l: string, rest: string)
    requires forall i :: 0 <= i < |l| && l[i] == '_' ==> i + 1 < |l| && l[i + 1] != 'B'
    ensures Find(l + BEGIN + rest, BEGIN) == |l|
  {
    if l == "" {
      assert l + BEGIN + rest == BEGIN + rest;
    } else {
      var s := l + BEGIN + rest;
      assert s[0] == l[0];
      if l[0] == '_' { assert s[1] == l[1]; }
      assert !(BEGIN <= s) by { assert BEGIN[0] == '_' && BEGIN[1] == 'B'; }
      assert s[1..] == l[1..] + BEGIN + rest;
      FindAfter(l[1..], rest);
    }
  }

  lemma NoNewline(n: nat)
    ensures '\n' !in Decimal(n)
  {
    DigitString(n);
  }

  /** The line a block begins with. */
  lemma BlockHead(tag: string, text: string, s: string)
    requires Taggable(tag) && |text| <= MAX64
    ensures var t := Block(tag, text) + s; var head := tag + BEGIN + Decimal(|text|);
      && LineEnd(t) == |head| && t[..|head|] == head && t == head + "\n" + (Body(tag, text) + s)
      && Find(head, BEGIN) == |tag| && Strtoull(t[|tag| + |BEGIN|..]) == (|text|, |Decimal(|text|)|)
  {
    hide LineEnd, Find, Strtoull, Decimal, Body;
    var d, rest := Decimal(|text|), Body(tag, text) + s;
    var head, t := tag + BEGIN + d, Block(tag, text) + s;
    NoNewline(|text|);
    FindAfter(tag, d);
    HeadLine(tag, d);
    assert t == head + "\n" + rest;
    LineEndAt(head, rest);
    ReadCount(|text|, rest);
    HeadRest(tag, d, rest);
  }

  lemma HeadLine(tag: string, d: string)
    requires '\n' !in tag && '\n' !in d
    ensures '\n' !in tag + BEGIN + d
  {
    assert '\n' !in BEGIN;
  }

  lemma HeadRest(tag: string, d: string, rest: string)
    ensures (tag + BEGIN + d + "\n" + rest)[|tag| + |BEGIN|..] == d + "\n" + rest
    ensures (tag + BEGIN + d + "\n" + rest)[..|tag| + |BEGIN| + |d|] == tag + BEGIN + d
  {
    var t := tag + BEGIN;
    assert tag + BEGIN + d + "\n" + rest == t + (d + "\n" + rest);
  }

  /** After the declared bytes comes the end marker, perhaps behind one newline. */
  lemma BodyEnds(tag: string, text: string, s: string)
    requires tag != "" && tag[0] != '\n'
    ensures var content := Body(tag, text) + s; var n := |text|;
      && n < |content| && content[..n] == text
      && var marker := if content[n] == '\n' then n + 1 else n;
         marker <= |content| && content[marker..] == tag + "_END" + ("\n" + s)
         && |Body(tag, text)| == marker + |tag| + 5
  {
    var content, n := Body(tag, text) + s, |text|;
    var fill := if text == "" || text[|text| - 1] == '\n' then "" else "\n";
    var tail := tag + "_END" + ("\n" + s);
    assert content == text + (fill + tail);
    assert content[n..] == fill + tail;
    assert content[n] == (fill + tail)[0];
    if fill == "" { assert (fill + tail)[0] == tag[0]; }
    assert content[n + |fill|..] == tail;
  }

  lemma MarkerFound(content: string, n: nat, endMarker: string, rest: string)
    requires n < |content|
    requires var m := if content[n] == '\n' then n + 1 else n;
      m <= |content| && content[m..] == endMarker + ("\n" + rest)
    ensures AfterMarker(content, n, endMarker) == |content| - |rest|
  {
    hide LineEnd;
    var m := if content[n] == '\n' then n + 1 else n;
    assert content[m..][|endMarker|..] == "\n" + rest;
    assert content[m + |endMarker|..] == content[m..][|endMarker|..];
    LineEndAt("", rest);
    assert "" + "\n" + rest == "\n" + rest;
  }

  /** The skip, once its tests are known to succeed. */
  lemma SkipSucceeds(t: string, b: nat, n: nat, used: nat, rest: string)
    requires Find(t[..LineEnd(t)], BEGIN) == b && 0 < b <= LABEL_MAX
    requires b + |BEGIN| + used == LineEnd(t) < |t| && used > 0 && Strtoull(t[b + |BEGIN|..]) == (n, used)
    requires var content := t[LineEnd(t) + 1..];
      && n < |content|
      && var marker := if content[n] == '\n' then n + 1 else n;
         marker <= |content| && content[marker..] == t[..b] + "_END" + ("\n" + rest)
    ensures Skip(t) == |t| - |rest|
  {
    hide LineEnd, Find, Strtoull, AfterMarker;
    MarkerFound(t[LineEnd(t) + 1..], n, t[..b] + "_END", rest);
  }

  lemma TagBegins(tag: string)
    requires Taggable(tag)
    ensures 0 < |tag| <= LABEL_MAX && tag[0] != '\n'
  {
    assert tag[0] in tag;
  }

  lemma DropLine(head: string, rest: string)
    ensures (head + "\n" + rest)[|head| + 1..] == rest
  {
  }

  /** A block is skipped whole. */
  lemma SkipsBlock(tag: string, text: string, s: string)
    requires Taggable(tag) && |text| <= MAX64
    ensures Skip(Block(tag, text) + s) == |Block(tag, text)|
  {
    hide *;
    var t, head := Block(tag, text) + s, tag + BEGIN + Decimal(|text|);
    BlockHead(tag, text, s);
    TagBegins(tag);
    BodyEnds(tag, text, s);
    DropLine(head, Body(tag, text) + s);
    assert t[..|tag|] == t[..|head|][..|tag|];
    assert head[..|tag|] == tag;
    SkipSucceeds(t, |tag|, |text|, |Decimal(|text|)|, s);
  }

  lemma Labels()
    ensures Taggable("SYSTEM_PROMPT") && Taggable("QUESTION_PROMPT") && Taggable(OUTPUT)
  {
    var a, b, c := "SYSTEM_PROMPT", "QUESTION_PROMPT", OUTPUT;
    assert forall i :: 0 <= i < |a| && a[i] == '_' ==> i == 6 && a[7] == 'P';
    assert forall i :: 0 <= i < |b| && b[i] == '_' ==> i == 8 && b[9] == 'P';
    assert forall i :: 0 <= i < |c| && c[i] == '_' ==> i == 5 && c[6] == 'O';
  }

  lemma PastBlock(tag: string, text: string, s: string)
    requires Taggable(tag) && |text| <= MAX64
    ensures NextCase(Block(tag, text) + s) == Shift(|Block(tag, text)|, NextCase(s))
    ensures tag != OUTPUT && (tag + "_")[0] != 'M' ==>
      OutputBlock(Block(tag, text) + s) == Shift(|Block(tag, text)|, OutputBlock(s))
  {
    hide Skip;
    var b := Block(tag, text);
    SkipsBlock(tag, text, s);
    assert (b + s)[|b|..] == s;
    assert b != "";
    if (tag + "_")[0] != 'M' {
      assert (b + s)[0] == tag[0] == (tag + "_")[0];
      assert OUTPUT_BEGIN[0] == 'M';
    }
  }

  /** From inside a case the next case is the next one written, whatever the
      prompts and the output contain. */
  lemma PastCase(c: Case, s: string)
    requires Writable(c)
    ensures NextCase(Lines(c.meta) + Blocks(c) + s) == Shift(|Lines(c.meta) + Blocks(c)|, NextCase(s))
  {
    hide Block, Lines, Skip, Find, LineEnd, NextCase;
    Labels();
    var s3 := Block(OUTPUT, c.output) + ("\n" + s);
    var s2 := Block("QUESTION_PROMPT", c.question) + s3;
    var s1 := Block("SYSTEM_PROMPT", c.system) + s2;
    NewlineLine(s);
    PastBlock(OUTPUT, c.output, "\n" + s);
    PastBlock("QUESTION_PROMPT", c.question, s3);
    PastBlock("SYSTEM_PROMPT", c.system, s2);
    PastLines(c.meta, s1);
    Nested(Lines(c.meta), Block("SYSTEM_PROMPT", c.system), Block("QUESTION_PROMPT", c.question), Block(OUTPUT, c.output), s);
  }

  lemma Nested(l: string, a: string, b: string, c: string, s: string)
    ensures l + (a + (b + (c + "\n"))) + s == l + (a + (b + (c + ("\n" + s))))
  {
    assert c + "\n" + s == c + ("\n" + s);
    assert b + (c + "\n") + s == b + (c + "\n" + s);
    assert a + (b + (c + "\n")) + s == a + (b + (c + "\n") + s);
  }

  lemma NewlineLine(s: string)
    ensures NextCase("\n" + s) == Shift(1, NextCase(s))
  {
    hide Skip, Find, LineEnd;
    Short("", BEGIN);
    PlainLine("", s);
    assert "" + "\n" + s == "\n" + s;
  }

  /** A case is found where it starts, and cut where the next one does. */
  lemma CutsCase(c: Case, s: string)
    requires Writable(c) && (s == "" || NextCase(s) == 0)
    ensures NextCase(Written(c) + s) == 0
    ensures CaseTexts(Written(c) + s) == [Written(c)] + CaseTexts(s)
  {
    hide Block, Lines, Skip, Find, LineEnd, NextCase, Blocks;
    var body := Lines(c.meta) + Blocks(c);
    var t := Written(c) + s;
    assert t == c.header + "\n" + (body + s);
    PlainLine(c.header, body + s);
    CaseHere(t);
    PastCase(c, s);
    NothingThere();
    assert t[0..] == t;
    var head := NextLine(t);
    var next := NextCase(t[head..]);
    var end := if next < 0 then |t| else head + next;
    assert end == |Written(c)|;
    assert t[..end] == Written(c) && t[end..] == s;
  }

  lemma NothingThere()
    ensures NextCase("") == -1
  {
  }

  lemma CaseHere(t: string)
    requires t != "" && Skip(t) == -1 && CASE <= t[..LineEnd(t)]
    ensures NextCase(t) == 0
  {
  }

  /** The model output comes back byte for byte. */
  lemma CopiesOutput(c: Case)
    requires Writable(c)
    ensures CopyOutput(Written(c)) == Some(c.output)
  {
    hide Block, Lines, Skip, Find, LineEnd, OutputBlock, Strtoull, CopyOutput, Decimal, Blocks;
    Labels();
    var u := Block(OUTPUT, c.output) + "\n";
    var s2 := Block("QUESTION_PROMPT", c.question) + u;
    var s1 := Block("SYSTEM_PROMPT", c.system) + s2;
    BlocksAre(c);
    var t := Written(c);
    assert t == c.header + "\n" + (Lines(c.meta) + s1);
    PlainLine(c.header, Lines(c.meta) + s1);
    HeaderNoBlock(c.header, Lines(c.meta) + s1);
    PastLines(c.meta, s1);
    PastBlock("SYSTEM_PROMPT", c.system, s2);
    PastBlock("QUESTION_PROMPT", c.question, u);
    BlockHead(OUTPUT, c.output, "\n");
    OutputHere(c.output, "\n");
    var i := OutputBlock(t);
    assert i == |t| - |u|;
    assert t[i..] == u;
    CopiesBlock(t, i, c.output, "\n");
  }

  lemma BlocksAre(c: Case)
    ensures Blocks(c) == Block("SYSTEM_PROMPT", c.system) + (Block("QUESTION_PROMPT", c.question) + (Block(OUTPUT, c.output) + "\n"))
  {
  }

  lemma HeaderNoBlock(h: string, rest: string)
    requires CASE <= h && '\n' !in h && Find(h, BEGIN) < 0
    ensures OutputBlock(h + "\n" + rest) == Shift(|h| + 1, OutputBlock(rest))
  {
    hide Skip, Find, LineEnd;
    PlainLine(h, rest);
    assert h[0] == '=' && (h + "\n" + rest)[..|h|] == h;
    assert OUTPUT_BEGIN[0] == 'M';
  }

  lemma OutputHere(text: string, s: string)
    requires |text| <= MAX64
    ensures OutputBlock(Block(OUTPUT, text) + s) == 0
  {
    hide Skip, Find, LineEnd, Decimal, Strtoull;
    Labels();
    BlockHead(OUTPUT, text, s);
    var head := OUTPUT + BEGIN + Decimal(|text|);
    assert head == OUTPUT_BEGIN + (" bytes=" + Decimal(|text|));
  }

  lemma FindBytes(d: string)
    ensures Find(OUTPUT + BEGIN + d, "bytes=") == 19
  {
    var s := OUTPUT + BEGIN + d;
    assert s == "MODEL_OUTPUT_BEGIN " + ("bytes=" + d);
    FindFirst("MODEL_OUTPUT_BEGIN ", "bytes=" + d);
  }

  lemma {:induction false} FindFirst(l: string, rest: string)
    requires 'b' !in l && "bytes=" <= rest
    ensures Find(l + rest, "bytes=") == |l|
  {
    if l == "" {
      assert l + rest == rest;
    } else {
      assert (l + rest)[0] == l[0] && l[0] in l;
      assert (l + rest)[1..] == l[1..] + rest;
      FindFirst(l[1..], rest);
    }
  }

  /** The copy, once its tests are known to succeed. */
  lemma CopySucceeds(t: string, i: nat, b: nat, n: nat, used: nat, rest: string)
    requires i == OutputBlock(t) && i <= |t|
    requires var u := t[i..];
      && LineEnd(u) < |u| && Find(u[..LineEnd(u)], "bytes=") == b
      && Strtoull(u[b + 6..]) == (n, used) && used > 0 && b + 6 + used == LineEnd(u)
      && var content := u[LineEnd(u) + 1..];
         && n < |content|
         && var marker := if content[n] == '\n' then n + 1 else n;
            marker <= |content| && content[marker..] == OUTPUT_END + rest
    ensures CopyOutput(t) == Some(t[i..][LineEnd(t[i..]) + 1..][..n])
  {
    hide Find, LineEnd, Strtoull, OutputBlock;
  }

  lemma CopiesBlock(t: string, i: nat, text: string, s: string)
    requires |text| <= MAX64 && i == OutputBlock(t) && i <= |t| && t[i..] == Block(OUTPUT, text) + s
    ensures CopyOutput(t) == Some(text)
  {
    hide Find, LineEnd, Decimal, Strtoull, OutputBlock, Body, Block, CopyOutput;
    Labels();
    var u, d := t[i..], Decimal(|text|);
    var head := OUTPUT + BEGIN + d;
    BlockHead(OUTPUT, text, s);
    FindBytes(d);
    BodyEnds(OUTPUT, text, s);
    assert |OUTPUT| + |BEGIN| == 19 + 6 && |head| == 25 + |d|;
    assert OUTPUT_END == OUTPUT + "_END";
    DropLine(head, Body(OUTPUT, text) + s);
    CopySucceeds(t, i, 19, |text|, |d|, "\n" + s);
  }

  /** For any cases the reader cuts the file exactly where they were written, and
      every model output comes back byte for byte. */
  lemma {:induction false} RegradeUndoesTrace(preamble: seq<string>, cs: seq<Case>)
    requires AllAvoid(preamble) && forall i :: 0 <= i < |cs| ==> Writable(cs[i])
    ensures var texts := CaseTexts(Lines(preamble) + AllWritten(cs));
      && |texts| == |cs|
      && forall i :: 0 <= i < |cs| ==> texts[i] == Written(cs[i]) && CopyOutput(texts[i]) == Some(cs[i].output)
  {
    hide NextCase, Lines, CopyOutput, CaseTexts, Writable, Written;
    var s := AllWritten(cs);
    CutsAll(cs);
    PastLines(preamble, s);
    NothingThere();
    Preamble(Lines(preamble), s);
  }

  lemma Preamble(pre: string, s: string)
    requires NextCase(pre + s) == Shift(|pre|, NextCase(s)) && (if s == "" then NextCase(s) == -1 else NextCase(s) == 0)
    ensures CaseTexts(pre + s) == CaseTexts(s)
  {
    hide NextCase, CaseTexts;
    CaseTextsStep(s);
    CaseTextsStep(pre + s);
    if s != "" { assert (pre + s)[|pre|..] == s && s[0..] == s; }
  }

  lemma {:induction false} CutsAll(cs: seq<Case>)
    requires forall i :: 0 <= i < |cs| ==> Writable(cs[i])
    ensures var s := AllWritten(cs); var texts := CaseTexts(s);
      && (if cs == [] then s == "" else s != "" && NextCase(s) == 0)
      && |texts| == |cs|
      && forall i :: 0 <= i < |cs| ==> texts[i] == Written(cs[i]) && CopyOutput(texts[i]) == Some(cs[i].output)
    decreases |cs|
  {
    hide NextCase, Lines, CopyOutput, Writable, Written, CaseTexts;
    NothingThere();
    NoCases();
    if cs != [] {
      CutsAll(cs[1..]);
      CutsCase(cs[0], AllWritten(cs[1..]));
      CopiesOutput(cs[0]);
      var texts := CaseTexts(AllWritten(cs));
      assert texts[0] == Written(cs[0]) && texts[1..] == CaseTexts(AllWritten(cs[1..]));
      forall i | 0 <= i < |cs| ensures texts[i] == Written(cs[i]) && CopyOutput(texts[i]) == Some(cs[i].output) {
        if i > 0 { assert texts[i] == texts[1..][i - 1] && cs[i] == cs[1..][i - 1]; }
      }
    }
  }

  lemma NoCases()
    ensures CaseTexts("") == []
  {
  }
}
