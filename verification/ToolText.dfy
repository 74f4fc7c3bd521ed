/** Tool bodies: only their own closing delimiter, and spellings that would be
    mistaken for an escaped one, are escaped.  The delimiter is '<' and `tail`. */
module ToolText {
  const AMP := "amp;"
  const LT := "lt;"
  const NUL := '\0'

  /** A delimiter's tail holds neither '<' nor '&'. */
  predicate Plain(s: string) {
    '<' !in s && '&' !in s
  }

  /** The rest after every leading "amp;". */
  function AfterAmps(s: string): (r: string)
    ensures |r| <= |s|
  {
    if AMP <= s then AfterAmps(s[4..]) else s
  }

  /** q36_tool_text_escaped_close. */
  predicate EscapedClose(s: string, tail: string) {
    s != "" && s[0] == '&'
    && var r := AfterAmps(s[1..]);
       LT <= r && tail <= r[3..]
  }

  /** q36_tool_text_needs_escape. */
  predicate NeedsEscape(s: string, tail: string) {
    ['<'] + tail <= s || EscapedClose(s, tail)
  }

  /** The writer of a parameter's value. */
  function Escape(t: string, tail: string): string {
    if t == "" then ""
    else (if !NeedsEscape(t, tail) then [t[0]] else if t[0] == '<' then "&lt;" else "&amp;") + Escape(t[1..], tail)
  }

  /** The decoder on whole strings. */
  function Unescape(s: string, tail: string): (r: string)
    ensures |r| <= |s|
    decreases |s|
  {
    if s == "" then ""
    else if EscapedClose(s, tail) then
      if "&amp;" <= s then "&" + Unescape(s[5..], tail) else "<" + Unescape(s[4..], tail)
    else [s[0]] + Unescape(s[1..], tail)
  }

  function Amps(k: nat): string {
    if k == 0 then "" else AMP + Amps(k - 1)
  }

  /** The spellings of an escaped delimiter: one "amp;" for each level of escaping. */
  function Spelling(k: nat, tail: string): string {
    "&" + (Amps(k) + (LT + tail))
  }

  lemma {:induction false} AmpsPlain(k: nat)
    ensures Plain(Amps(k)) && |Amps(k)| == 4 * k
  {
    if k > 0 { AmpsPlain(k - 1); }
  }

  lemma {:induction false} AfterAmpsSkips(k: nat, rest: string)
    requires !(AMP <= rest)
    ensures AfterAmps(Amps(k) + rest) == rest
  {
    if k == 0 {
      assert "" + rest == rest;
    } else {
      assert (Amps(k) + rest)[4..] == Amps(k - 1) + rest;
      assert (Amps(k) + rest)[..4] == AMP;
      AfterAmpsSkips(k - 1, rest);
    }
  }

  lemma {:induction false} AfterAmpsSplits(s: string) returns (k: nat)
    ensures s == Amps(k) + AfterAmps(s) && !(AMP <= AfterAmps(s))
  {
    if AMP <= s {
      k := AfterAmpsSplits(s[4..]);
      k := k + 1;
      assert s == s[..4] + s[4..];
    } else {
      k := 0;
      assert "" + s == s;
    }
  }

  lemma CloseSpells(s: string, tail: string) returns (k: nat)
    requires EscapedClose(s, tail)
    ensures Spelling(k, tail) <= s
  {
    hide AfterAmps, Amps;
    k := AfterAmpsSplits(s[1..]);
    var r := AfterAmps(s[1..]);
    assert r == LT + tail + r[3..][|tail|..];
    assert s == "&" + s[1..];
    assert s == Spelling(k, tail) + r[3..][|tail|..];
  }

  lemma SpellsClose(s: string, k: nat, tail: string)
    requires Spelling(k, tail) <= s
    ensures EscapedClose(s, tail)
  {
    hide AfterAmps, Amps;
    var rest := s[|Spelling(k, tail)|..];
    var r := LT + tail + rest;
    assert s == Spelling(k, tail) + rest;
    assert s[1..] == Amps(k) + r;
    assert r[0] == 'l';
    AfterAmpsSkips(k, r);
    assert r[3..] == tail + rest;
  }

  /** An escaped delimiter is one of its spellings. */
  lemma EscapedCloseIff(s: string, tail: string)
    ensures EscapedClose(s, tail) <==> exists k :: Spelling(k, tail) <= s
  {
    hide EscapedClose, Spelling;
    if EscapedClose(s, tail) { var k := CloseSpells(s, tail); }
    if k: nat :| Spelling(k, tail) <= s { SpellsClose(s, k, tail); }
  }

  /** Plain text passes through: it begins the escaped text exactly when it begins
      the text. */
  lemma {:induction false} PlainPrefix(w: string, u: string, tail: string)
    requires Plain(w)
    ensures w <= Escape(u, tail) <==> w <= u
    decreases |w|
  {
    if w != "" && u != "" {
      var first := if !NeedsEscape(u, tail) then [u[0]] else if u[0] == '<' then "&lt;" else "&amp;";
      var rest := Escape(u[1..], tail);
      assert Escape(u, tail) == first + rest;
      assert Plain(w[1..]);
      PlainPrefix(w[1..], u[1..], tail);
      Step(w, u);
      if NeedsEscape(u, tail) {
        assert u[0] == '<' || u[0] == '&';
        assert (first + rest)[0] == '&';
        assert w[0] in w;
      } else {
        Step(w, first + rest);
        assert (first + rest)[1..] == rest;
      }
    }
  }

  lemma Step(w: string, u: string)
    requires w != "" && u != ""
    ensures w <= u <==> w[0] == u[0] && w[1..] <= u[1..]
  {
    if w[0] == u[0] && w[1..] <= u[1..] {
      assert w == [w[0]] + w[1..] && u == [u[0]] + u[1..];
    }
  }

  /** A spelling at the head of a text and of the text escaped behind its first
      character are the same thing. */
  lemma SpellingStays(t: string, k: nat, tail: string)
    requires t != "" && Plain(tail)
    ensures Spelling(k, tail) <= [t[0]] + Escape(t[1..], tail) <==> Spelling(k, tail) <= t
  {
    hide Escape, Amps;
    var w, e := Amps(k) + (LT + tail), [t[0]] + Escape(t[1..], tail);
    AmpsPlain(k);
    assert Spelling(k, tail)[1..] == w && e[1..] == Escape(t[1..], tail);
    Step(Spelling(k, tail), e);
    Step(Spelling(k, tail), t);
    PlainPrefix(w, t[1..], tail);
  }

  /** Escaping a '&' that does not have to be escaped does not make it an escape. */
  lemma LiteralStays(t: string, tail: string)
    requires t != "" && Plain(tail) && !NeedsEscape(t, tail)
    ensures !EscapedClose(Escape(t, tail), tail)
  {
    hide EscapedClose, Spelling;
    EscapedCloseIff(t, tail);
    EscapedCloseIff(Escape(t, tail), tail);
    forall k: nat ensures Spelling(k, tail) <= Escape(t, tail) ==> Spelling(k, tail) <= t {
      SpellingStays(t, k, tail);
    }
  }

  lemma EscapedDelimiter(t: string, tail: string)
    requires Plain(tail) && ['<'] + tail <= t
    ensures EscapedClose(Escape(t, tail), tail) && !("&amp;" <= Escape(t, tail))
    ensures Escape(t, tail)[4..] == Escape(t[1..], tail)
  {
    var e := Escape(t, tail);
    assert t[0] == '<';
    assert e == "&lt;" + Escape(t[1..], tail);
    Step(['<'] + tail, t);
    assert (['<'] + tail)[1..] == tail;
    PlainPrefix(tail, t[1..], tail);
    assert e[1..] == LT + Escape(t[1..], tail);
    assert e[1] == 'l';
    assert AfterAmps(e[1..]) == e[1..];
    assert e[1..][3..] == Escape(t[1..], tail);
  }

  /** A spelling with its '&' escaped is the next spelling. */
  lemma SpellingGrows(t: string, k: nat, tail: string)
    requires Plain(tail) && Spelling(k, tail) <= t
    ensures Spelling(k + 1, tail) <= "&amp;" + Escape(t[1..], tail)
  {
    hide Escape, Amps;
    var w, rest := Amps(k) + (LT + tail), Escape(t[1..], tail);
    AmpsPlain(k);
    Step(Spelling(k, tail), t);
    assert Spelling(k, tail)[1..] == w;
    PlainPrefix(w, t[1..], tail);
    NextSpelling(k, tail);
    PrefixUnder("&amp;", w, rest);
  }

  lemma NextSpelling(k: nat, tail: string)
    ensures Spelling(k + 1, tail) == "&amp;" + (Amps(k) + (LT + tail))
  {
    assert Amps(k + 1) == AMP + Amps(k);
  }

  lemma PrefixUnder(a: string, w: string, rest: string)
    requires w <= rest
    ensures a + w <= a + rest
  {
    assert a + rest == a + w + rest[|w|..];
  }

  lemma EscapedEscape(t: string, tail: string)
    requires Plain(tail) && EscapedClose(t, tail)
    ensures EscapedClose(Escape(t, tail), tail) && "&amp;" <= Escape(t, tail)
    ensures Escape(t, tail)[5..] == Escape(t[1..], tail)
  {
    hide EscapedClose, Spelling;
    var e := Escape(t, tail);
    CloseStarts(t, tail);
    assert !(['<'] + tail <= t);
    assert e == "&amp;" + Escape(t[1..], tail);
    var k := CloseSpells(t, tail);
    SpellingGrows(t, k, tail);
    SpellsClose(e, k + 1, tail);
  }

  /** Decoding undoes escaping, whatever the text. */
  lemma {:induction false} RoundTrip(t: string, tail: string)
    requires Plain(tail)
    ensures Unescape(Escape(t, tail), tail) == t
    decreases |t|
  {
    hide EscapedClose;
    if t != "" {
      RoundTrip(t[1..], tail);
      assert t == [t[0]] + t[1..];
      if ['<'] + tail <= t {
        EscapedDelimiter(t, tail);
        assert t[0] == '<';
      } else if EscapedClose(t, tail) {
        EscapedEscape(t, tail);
        assert t[0] == '&' by { CloseStarts(t, tail); }
      } else {
        LiteralStays(t, tail);
        assert Escape(t, tail)[1..] == Escape(t[1..], tail);
      }
    }
  }

  lemma CloseStarts(s: string, tail: string)
    requires EscapedClose(s, tail)
    ensures s != "" && s[0] == '&' && |s| >= 4 && ("&amp;" <= s ==> |s| >= 5)
  {
  }

  /** Escaped text never holds the delimiter, wherever one looks. */
  lemma {:induction false} NoDelimiter(t: string, tail: string, i: nat)
    requires Plain(tail) && i <= |Escape(t, tail)|
    ensures !(['<'] + tail <= Escape(t, tail)[i..])
    decreases |t|
  {
    hide EscapedClose;
    var e := Escape(t, tail);
    if t != "" {
      var first := if !NeedsEscape(t, tail) then [t[0]] else if t[0] == '<' then "&lt;" else "&amp;";
      assert e == first + Escape(t[1..], tail);
      if i >= |first| {
        assert e[i..] == Escape(t[1..], tail)[i - |first|..];
        NoDelimiter(t[1..], tail, i - |first|);
      } else {
        assert e[i..][0] == first[i];
        if !NeedsEscape(t, tail) {
          assert e[i..][1..] == Escape(t[1..], tail);
          PlainPrefix(tail, t[1..], tail);
          Step(['<'] + tail, t);
          Step(['<'] + tail, e[i..]);
          assert (['<'] + tail)[1..] == tail;
        }
      }
    }
  }

  /** What the reader makes of the bytes under it: one character, and how many
      bytes it took. */
  method Next(a: array<char>, s: nat, n: nat, tail: string) returns (c: char, width: nat)
    requires s < n < a.Length
    ensures 1 <= width <= n - s && Unescape(a[s..n], tail) == [c] + Unescape(a[s + width..n], tail)
  {
    hide EscapedClose, Unescape;
    UnescapeStep(a[s..n], tail);
    c, width := a[s], 1;
    if EscapedClose(a[s..n], tail) {
      if "&amp;" <= a[s..n] { c, width := '&', 5; } else { c, width := '<', 4; }
    }
    assert a[s..n][width..] == a[s + width..n];
  }

  /** q36_tool_text_unescape: two cursors over one NUL-terminated string.  The
      writer never passes the reader, so what is still to be read is intact. */
  method UnescapeInPlace(a: array<char>, n: nat, tail: string) returns (m: nat)
    requires n < a.Length && a[n] == NUL && NUL !in a[..n]
    modifies a
    ensures m <= n && a[..m] == Unescape(old(a[..n]), tail) && a[m] == NUL
    ensures a[n + 1..] == old(a[n + 1..])
  {
    hide EscapedClose, Unescape;
    ghost var text, after := a[..n], a[n + 1..];
    var s, out := 0, 0;
    assert forall i :: 0 <= i < n ==> a[i] == text[i] && text[i] in text;
    assert a[0..n] == text;
    while a[s] != NUL
      invariant 0 <= out <= s <= n && a[n] == NUL && a[n + 1..] == after
      invariant forall i :: s <= i < n ==> a[i] != NUL
      invariant a[..out] + Unescape(a[s..n], tail) == Unescape(text, tail)
      decreases n - s
    {
      var c, width := Next(a, s, n, tail);
      ghost var done, todo := a[..out], a[s + width..n];
      assert done + ([c] + Unescape(todo, tail)) == done + [c] + Unescape(todo, tail);
      a[out] := c;
      out, s := out + 1, s + width;
      assert a[s..n] == todo && a[..out] == done + [c];
    }
    UnescapeEmpty(tail);
    assert a[n..n] == [];
    a[out] := NUL;
    m := out;
  }

  lemma UnescapeEmpty(tail: string)
    ensures Unescape("", tail) == ""
  {
  }

  /** What the decoder does at the head of a string. */
  lemma UnescapeStep(s: string, tail: string)
    requires s != ""
    ensures EscapedClose(s, tail) ==>
      if "&amp;" <= s then Unescape(s, tail) == "&" + Unescape(s[5..], tail)
      else |s| >= 4 && Unescape(s, tail) == "<" + Unescape(s[4..], tail)
    ensures !EscapedClose(s, tail) ==> Unescape(s, tail) == [s[0]] + Unescape(s[1..], tail)
  {
    if EscapedClose(s, tail) { CloseStarts(s, tail); }
  }

  /** q36_tool_text_partial_escape. */
  predicate PartialEscape(s: string, tail: string) {
    s != "" && s[0] == '&'
    && var r := AfterAmps(s[1..]);
       if |r| < 4 && r <= AMP then true
       else if |r| < 3 then r <= LT
       else LT <= r && |r| - 3 < |tail| && r[3..] <= tail
  }

  predicate ProperPrefix(s: string, w: string) {
    s <= w && |s| < |w|
  }

  /** A fragment is withheld exactly when it may still become an escape. */
  lemma PartialEscapeIff(s: string, tail: string)
    ensures PartialEscape(s, tail) <==> s != "" && exists k :: ProperPrefix(s, Spelling(k, tail))
  {
    if PartialEscape(s, tail) {
      var k := AfterAmpsSplits(s[1..]);
      PartialExtends(s, k, tail);
    }
    if s != "" {
      if k :| ProperPrefix(s, Spelling(k, tail)) { PrefixIsPartial(s, k, tail); }
    }
  }

  /** One "amp;" more at the end instead of at the front. */
  lemma {:induction false} AmpsSnoc(k: nat)
    ensures Amps(k + 1) == Amps(k) + AMP
  {
    if k > 0 { AmpsSnoc(k - 1); }
  }

  lemma PartialExtends(s: string, k: nat, tail: string)
    requires PartialEscape(s, tail) && s[1..] == Amps(k) + AfterAmps(s[1..])
    ensures ProperPrefix(s, Spelling(k + 1, tail)) || ProperPrefix(s, Spelling(k, tail))
  {
    hide AfterAmps;
    var r := AfterAmps(s[1..]);
    assert s == "&" + Amps(k) + r;
    if |r| < 4 && r <= AMP {
      AmpsSnoc(k);
      var w := Spelling(k + 1, tail);
      assert w == "&" + Amps(k) + r + (AMP[|r|..] + (LT + tail));
    } else {
      var w := Spelling(k, tail);
      assert r <= LT + tail && |r| < |LT + tail|;
      assert w == "&" + Amps(k) + r + (LT + tail)[|r|..];
    }
  }

  lemma {:induction false} PrefixAfterAmps(u: string, k: nat, tail: string)
    requires ProperPrefix(u, Amps(k) + (LT + tail))
    ensures var r := AfterAmps(u); (|r| < 4 && r <= AMP) || (ProperPrefix(r, LT + tail) && !(AMP <= r))
    decreases k
  {
    var w := Amps(k) + (LT + tail);
    if k == 0 {
      assert w == LT + tail;
      if |u| > 0 { assert u[0] == w[0] == 'l'; }
    } else {
      assert w == AMP + (Amps(k - 1) + (LT + tail));
      if |u| < 4 {
        assert u == w[..|u|] == AMP[..|u|];
      } else {
        assert u[..4] == w[..4] == AMP;
        assert u[4..] == w[4..][..|u| - 4];
        assert w[4..] == Amps(k - 1) + (LT + tail);
        PrefixAfterAmps(u[4..], k - 1, tail);
      }
    }
  }

  lemma PrefixIsPartial(s: string, k: nat, tail: string)
    requires s != "" && ProperPrefix(s, Spelling(k, tail))
    ensures PartialEscape(s, tail)
  {
    var w := Spelling(k, tail);
    Step(s, w);
    assert w[1..] == Amps(k) + (LT + tail);
    PrefixAfterAmps(s[1..], k, tail);
    var r := AfterAmps(s[1..]);
    if !(|r| < 4 && r <= AMP) {
      var l := LT + tail;
      assert r == l[..|r|];
      if |r| >= 3 {
        assert r[..3] == LT;
        assert r[3..] == l[3..][..|r| - 3] && l[3..] == tail;
      } else {
        assert r == LT[..|r|];
      }
    }
  }

  /** A decoder that holds such fragments back: what it passes on and what it keeps. */
  function Stream(s: string, tail: string): (r: (string, string))
    decreases |s|
  {
    if s == "" then ("", "")
    else if EscapedClose(s, tail) then
      if "&amp;" <= s then var r := Stream(s[5..], tail); ("&" + r.0, r.1)
      else var r := Stream(s[4..], tail); ("<" + r.0, r.1)
    else if PartialEscape(s, tail) then ("", s)
    else var r := Stream(s[1..], tail); ([s[0]] + r.0, r.1)
  }

  lemma CloseKept(s: string, t: string, tail: string)
    requires s != ""
    ensures EscapedClose(s, tail) ==> EscapedClose(s + t, tail)
    ensures EscapedClose(s + t, tail) && !EscapedClose(s, tail) ==> PartialEscape(s, tail)
  {
    hide EscapedClose, PartialEscape, Spelling;
    EscapedCloseIff(s, tail);
    EscapedCloseIff(s + t, tail);
    PartialEscapeIff(s, tail);
    forall k: nat ensures Spelling(k, tail) <= s + t <==>
      Spelling(k, tail) <= s || (ProperPrefix(s, Spelling(k, tail)) && Spelling(k, tail) <= s + t)
    {
      PrefixCases(Spelling(k, tail), s, t);
    }
  }

  lemma PrefixCases(w: string, s: string, t: string)
    ensures w <= s ==> w <= s + t
    ensures w <= s + t ==> w <= s || ProperPrefix(s, w)
  {
    if w <= s + t {
      if |w| <= |s| {
        assert (s + t)[..|w|] == s[..|w|];
      } else {
        assert w == (s + t)[..|w|];
        assert w[..|s|] == s;
      }
    }
  }

  /** However the text is cut, nothing is lost and nothing is decoded differently. */
  lemma {:induction false} StreamCarries(s: string, t: string, tail: string)
    ensures var r := Stream(s, tail); Unescape(s + t, tail) == r.0 + Unescape(r.1 + t, tail)
    decreases |s|
  {
    hide EscapedClose, PartialEscape, Unescape, Stream;
    var st := s + t;
    UnescapeEmpty(tail);
    StreamStep(s, tail);
    if s == "" {
      assert st == t && "" + t == t;
    } else {
      CloseKept(s, t, tail);
      UnescapeStep(st, tail);
      if EscapedClose(s, tail) {
        CloseStarts(s, tail);
        assert "&amp;" <= st <==> "&amp;" <= s by { SamePrefix(s, t, tail); }
        var n := if "&amp;" <= s then 5 else 4;
        assert st[n..] == s[n..] + t;
        StreamCarries(s[n..], t, tail);
      } else if PartialEscape(s, tail) {
      } else {
        assert st[1..] == s[1..] + t && st[0] == s[0];
        StreamCarries(s[1..], t, tail);
      }
    }
  }

  lemma StreamStep(s: string, tail: string)
    ensures s == "" ==> Stream(s, tail) == ("", "")
    ensures s != "" && EscapedClose(s, tail) ==>
      if "&amp;" <= s then Stream(s, tail) == ("&" + Stream(s[5..], tail).0, Stream(s[5..], tail).1)
      else |s| >= 4 && Stream(s, tail) == ("<" + Stream(s[4..], tail).0, Stream(s[4..], tail).1)
    ensures s != "" && !EscapedClose(s, tail) ==>
      Stream(s, tail) == if PartialEscape(s, tail) then ("", s) else ([s[0]] + Stream(s[1..], tail).0, Stream(s[1..], tail).1)
  {
    if EscapedClose(s, tail) { CloseStarts(s, tail); }
  }

  lemma SamePrefix(s: string, t: string, tail: string)
    requires EscapedClose(s, tail)
    ensures "&amp;" <= s + t <==> "&amp;" <= s
  {
    var u := s[1..];
    if !(AMP <= u) {
      assert u[0] == 'l' && (s + t)[1] == s[1] == u[0];
    } else {
      assert s == [s[0]] + (AMP + u[4..]);
      assert "&amp;" <= s;
    }
  }

  function Glue(ps: seq<string>): string {
    if ps == [] then "" else ps[0] + Glue(ps[1..])
  }

  /** The withholding decoder over a whole stream of fragments: what is held back
      at the end is decoded as it is. */
  function Fragments(held: string, ps: seq<string>, tail: string): string
    decreases |ps|
  {
    if ps == [] then Unescape(held, tail)
    else
      var r := Stream(held + ps[0], tail);
      r.0 + Fragments(r.1, ps[1..], tail)
  }

  /** For every way of splitting the input the stream decodes to the whole text. */
  lemma {:induction false} FragmentsDecode(held: string, ps: seq<string>, tail: string)
    ensures Fragments(held, ps, tail) == Unescape(held + Glue(ps), tail)
    decreases |ps|
  {
    hide Unescape, Stream;
    if ps == [] {
      assert held + "" == held;
    } else {
      var r := Stream(held + ps[0], tail);
      FragmentsDecode(r.1, ps[1..], tail);
      StreamCarries(held + ps[0], Glue(ps[1..]), tail);
      assert held + (ps[0] + Glue(ps[1..])) == held + ps[0] + Glue(ps[1..]);
    }
  }

  /** A parameter as the writer frames it: on lines of its own, before the closing
      delimiter. */
  function Framed(t: string, tail: string): string {
    "\n" + Escape(t, tail) + "\n" + (['<'] + tail)
  }

  /** Where a text first holds the delimiter, or -1. */
  function FirstDelimiter(s: string, tail: string): (i: int)
    ensures -1 <= i <= |s|
  {
    if ['<'] + tail <= s then 0
    else if s == "" then -1
    else
      var r := FirstDelimiter(s[1..], tail);
      if r < 0 then -1 else r + 1
  }

  lemma {:induction false} FirstAt(a: string, s: string, tail: string)
    requires ['<'] + tail <= s
    requires forall i :: 0 <= i < |a| ==> !(['<'] + tail <= (a + s)[i..])
    ensures FirstDelimiter(a + s, tail) == |a|
  {
    if a == "" {
      assert a + s == s;
    } else {
      assert (a + s)[0..] == a + s && (a + s)[1..] == a[1..] + s;
      forall i | 0 <= i < |a[1..]| ensures !(['<'] + tail <= (a[1..] + s)[i..]) {
        assert (a + s)[i + 1..] == (a[1..] + s)[i..];
      }
      FirstAt(a[1..], s, tail);
    }
  }

  /** The reader: up to the first delimiter, without one newline at either end,
      decoded. */
  function Unframed(s: string, tail: string): string {
    var i := FirstDelimiter(s, tail);
    var value := if i < 0 then s else s[..i];
    var front := if value != "" && value[0] == '\n' then value[1..] else value;
    var trimmed := if front != "" && front[|front| - 1] == '\n' then front[..|front| - 1] else front;
    Unescape(trimmed, tail)
  }

  /** No delimiter begins in escaped text and ends behind the newline after it. */
  lemma NoneAcross(e: string, rest: string, tail: string)
    requires '\n' !in tail && !(['<'] + tail <= e)
    ensures !(['<'] + tail <= e + ("\n" + rest))
  {
    var d, s := ['<'] + tail, e + ("\n" + rest);
    if |d| <= |e| {
      assert s[..|d|] == e[..|d|];
    } else {
      assert s[|e|] == '\n';
      assert d[|e|] != '\n' by { if |e| > 0 { assert d[|e|] == tail[|e| - 1]; } }
    }
  }

  /** The first delimiter behind a framed parameter is the writer's own. */
  lemma FramedEnds(t: string, tail: string, rest: string)
    requires Plain(tail) && '\n' !in tail
    ensures FirstDelimiter(Framed(t, tail) + rest, tail) == |Escape(t, tail)| + 2
  {
    hide Escape;
    var e, end := Escape(t, tail), ['<'] + tail + rest;
    var a := "\n" + e + "\n";
    assert Framed(t, tail) + rest == a + end;
    forall i | 0 <= i < |a| ensures !(['<'] + tail <= (a + end)[i..]) {
      if 0 < i <= |e| {
        NoDelimiter(t, tail, i - 1);
        assert (a + end)[i..] == e[i - 1..] + ("\n" + end);
        NoneAcross(e[i - 1..], end, tail);
      } else {
        assert (a + end)[i..][0] == '\n';
      }
    }
    assert ['<'] + tail <= end;
    FirstAt(a, end, tail);
  }

  /** Reading back what the writer framed gives the parameter, whatever follows. */
  lemma FramedRoundTrip(t: string, tail: string, rest: string)
    requires Plain(tail) && '\n' !in tail
    ensures Unframed(Framed(t, tail) + rest, tail) == t
  {
    hide Escape, Unescape, FirstDelimiter;
    var e := Escape(t, tail);
    FramedEnds(t, tail, rest);
    var s := Framed(t, tail) + rest;
    assert s[..|e| + 2] == "\n" + e + "\n";
    assert ("\n" + e + "\n")[1..] == e + "\n" && (e + "\n")[..|e|] == e;
    RoundTrip(t, tail);
  }
}
