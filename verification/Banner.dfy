/** ANSI-aware truncation of banner lines (internal/tui/runewidth.go), which are read
    as body runes and CSI runs. */
module Banner {
  // A run (ECMA-48, section 5.4) is `ESC [`, parameters, and a final letter; it
  // takes no room on the screen.

  import opened GoStrings

  const ESC: char := '\U{1B}'
  const ELLIPSIS: char := '…'
  const RESET: string := [ESC, '[', '0', 'm']

  predicate IsParam(c: char) { '0' <= c <= '9' || c == ';' || c == '?' }

  predicate IsLetter(c: char) { 'a' <= c <= 'z' || 'A' <= c <= 'Z' }

  /** How many parameter runes `s` begins with. */
  function Params(s: string): (n: nat)
    ensures n <= |s| && (forall i :: 0 <= i < n ==> IsParam(s[i])) && (n < |s| ==> !IsParam(s[n]))
  {
    if s == "" || !IsParam(s[0]) then 0 else 1 + Params(s[1..])
  }

  /** The length of the CSI run that `s` begins with, or 0. */
  function CsiLen(s: string): (n: nat)
    ensures n <= |s|
    ensures n > 0 ==> n >= 3 && s[0] == ESC && s[1] == '['
  {
    if |s| < 3 || s[0] != ESC || s[1] != '[' then 0
    else
      var k := 2 + Params(s[2..]);
      if k < |s| && IsLetter(s[k]) then k + 1 else 0
  }

  /** `stripCSI` */
  function StripCsi(s: string): string {
    if s == "" then ""
    else if CsiLen(s) > 0 then StripCsi(s[CsiLen(s)..])
    else [s[0]] + StripCsi(s[1..])
  }

  /** The display width of a text, rune by rune; `rw` is the width of a rune. */
  function Width(s: string, rw: char -> nat): nat {
    if s == "" then 0 else rw(s[0]) + Width(s[1..], rw)
  }

  /** `bannerVisualWidth` */
  function VisualWidth(s: string, rw: char -> nat): nat { Width(StripCsi(s), rw) }

  /** `ensureANSIReset` */
  function EnsureReset(s: string): string {
    if Index(s, [ESC, '[']) >= 0 && !EndsWithReset(s) then s + RESET else s
  }

  predicate EndsWithReset(s: string) { |s| >= 4 && s[|s| - 4..] == RESET }

  /** The longest part of `s` that fits in `budget` columns, stopped at the first
      body rune that does not; runs passed on the way are kept whole. */
  function Cut(s: string, budget: int, rw: char -> nat): string {
    if s == "" then ""
    else if CsiLen(s) > 0 then s[..CsiLen(s)] + Cut(s[CsiLen(s)..], budget, rw)
    else if rw(s[0]) > budget then ""
    else [s[0]] + Cut(s[1..], budget - rw(s[0]), rw)
  }

  /** `bannerTruncate` */
  function Truncated(s: string, w: int, rw: char -> nat): string {
    if w <= 0 then ""
    else if VisualWidth(s, rw) <= w then EnsureReset(s)
    else EnsureReset(Cut(s, w - 1, rw) + [ELLIPSIS])
  }

  // ------------------------------------------------------ what a run is, literally

  /** The regular expression of the code in parts: escape and bracket, any number of
      digits, semicolons and question marks, and one ASCII letter. */
  predicate IsRun(run: string, params: string, final: char) {
    && run == ['\U{1B}', '['] + params + [final]
    && (forall i :: 0 <= i < |params| ==> params[i] in "0123456789;?")
    && ('a' <= final <= 'z' || 'A' <= final <= 'Z')
  }

  lemma ParamRunes(c: char)
    ensures IsParam(c) <==> c in "0123456789;?"
    ensures 'a' <= c <= 'z' || 'A' <= c <= 'Z' ==> !IsParam(c)
  {
    var s := "0123456789;?";
    assert s == ['0', '1', '2', '3', '4', '5', '6', '7', '8', '9', ';', '?'];
    if IsParam(c) {
      assert c == ';' || c == '?' || s[c as int - '0' as int] == c;
      assert s[10] == ';' && s[11] == '?';
    }
  }

  lemma {:induction false} ParamsOf(params: string, y: string)
    requires forall i :: 0 <= i < |params| ==> IsParam(params[i])
    requires y != "" && !IsParam(y[0])
    ensures Params(params + y) == |params|
  {
    if params == "" {
      assert params + y == y;
    } else {
      assert (params + y)[1..] == params[1..] + y;
      ParamsOf(params[1..], y);
    }
  }

  /** A text begins with a run exactly when it begins with such a text, and the run
      is that text. */
  lemma RunsAreExactly(s: string)
    ensures forall run, params, final :: IsRun(run, params, final) && run <= s ==> CsiLen(s) == |run|
    ensures CsiLen(s) > 0 ==> exists params, final :: IsRun(s[..CsiLen(s)], params, final)
  {
    forall run, params, final | IsRun(run, params, final) && run <= s ensures CsiLen(s) == |run| {
      RunIsFound(s, run, params, final);
    }
    if CsiLen(s) > 0 {
      var n := CsiLen(s);
      var params, final := s[2..n - 1], s[n - 1];
      forall i | 0 <= i < |params| ensures params[i] in "0123456789;?" {
        assert params[i] == s[2..][i];
        ParamRunes(params[i]);
      }
      assert s[..n] == ['\U{1B}', '['] + params + [final];
      assert IsRun(s[..n], params, final);
    }
  }

  lemma RunIsFound(s: string, run: string, params: string, final: char)
    requires IsRun(run, params, final) && run <= s
    ensures CsiLen(s) == |run|
  {
    var y := [final] + s[|run|..];
    forall i | 0 <= i < |params| ensures IsParam(params[i]) {
      ParamRunes(params[i]);
    }
    ParamRunes(final);
    ParamsOf(params, y);
    assert s == ['\U{1B}', '['] + params + y;
    assert s[2..] == params + y;
  }

  /** The reset, literally. */
  lemma ResetText(s: string)
    ensures var reset := ['\U{1B}', '[', '0', 'm'];
      EnsureReset(s) == if Index(s, ['\U{1B}', '[']) >= 0 && !(|s| >= 4 && s[|s| - 4..] == reset) then s + reset else s
  {
  }

  // ------------------------------------------------------------- the loops

  /** `ansiCSIRe.FindAllStringIndex` on the text that starts at `off`. */
  function FindRuns(s: string, off: nat): seq<(nat, nat)> {
    if s == "" then []
    else if CsiLen(s) > 0 then [(off, off + CsiLen(s))] + FindRuns(s[CsiLen(s)..], off + CsiLen(s))
    else FindRuns(s[1..], off + 1)
  }

  /** No run begins inside `x` when `y` follows it. */
  ghost predicate BodyThen(x: string, y: string) {
    x == "" || (CsiLen(x + y) == 0 && BodyThen(x[1..], y))
  }

  lemma FindStep(s: string, off: nat)
    requires s != ""
    ensures CsiLen(s) > 0 ==> FindRuns(s, off) == [(off, off + CsiLen(s))] + FindRuns(s[CsiLen(s)..], off + CsiLen(s))
    ensures CsiLen(s) == 0 ==> FindRuns(s, off) == FindRuns(s[1..], off + 1)
    ensures FindRuns("", off) == []
  {
    hide CsiLen;
  }

  /** `run` is the first run in `s`, behind the body runes `x`; `locs` are the places found. */
  ghost predicate FirstRun(s: string, off: nat, locs: seq<(nat, nat)>, x: string, run: string, y: string) {
    && s == x + (run + y) && BodyThen(x, run + y) && CsiLen(run + y) == |run| > 0
    && locs == [(off + |x|, off + |x| + |run|)] + FindRuns(y, off + |x| + |run|)
  }

  lemma RunAtFront(run: string, y: string, off: nat)
    requires CsiLen(run + y) == |run| > 0
    ensures FirstRun(run + y, off, FindRuns(run + y, off), "", run, y)
  {
    var s := run + y;
    NoBodyBefore(s);
    hide CsiLen, FindRuns, BodyThen;
    assert s[|run|..] == y;
    FindStep(s, off);
  }

  lemma NoBodyBefore(s: string)
    ensures "" + s == s && BodyThen("", s)
  {
  }

  lemma RunFurtherOn(s: string, off: nat, x: string, run: string, y: string)
    requires s != "" && CsiLen(s) == 0 && FirstRun(s[1..], off + 1, FindRuns(s[1..], off + 1), x, run, y)
    ensures FirstRun(s, off, FindRuns(s, off), [s[0]] + x, run, y)
  {
    FindStep(s, off);
    hide CsiLen, FindRuns;
    var x' := [s[0]] + x;
    assert s == [s[0]] + s[1..];
    assert x' + (run + y) == [s[0]] + (x + (run + y));
    assert x'[1..] == x;
  }

  lemma {:induction false} NextRun(s: string, off: nat) returns (x: string, run: string, y: string)
    requires FindRuns(s, off) != []
    ensures FirstRun(s, off, FindRuns(s, off), x, run, y)
  {
    hide CsiLen, FirstRun;
    if CsiLen(s) > 0 {
      x, run, y := "", s[..CsiLen(s)], s[CsiLen(s)..];
      assert s == run + y;
      RunAtFront(run, y, off);
    } else {
      x, run, y := NextRun(s[1..], off + 1);
      RunFurtherOn(s, off, x, run, y);
      x := [s[0]] + x;
    }
  }

  lemma {:induction false} NoRun(s: string, off: nat)
    requires FindRuns(s, off) == []
    ensures BodyThen(s, "")
  {
    hide CsiLen;
    assert s + "" == s;
    if s != "" {
      assert CsiLen(s) == 0;
      NoRun(s[1..], off + 1);
    }
  }

  lemma {:induction false} BodySplits(x1: string, x2: string, y: string)
    requires BodyThen(x1 + x2, y)
    ensures BodyThen(x1, x2 + y) && BodyThen(x2, y)
  {
    hide CsiLen;
    if x1 == "" {
      assert x1 + x2 == x2;
    } else {
      assert (x1 + x2)[1..] == x1[1..] + x2;
      assert x1 + x2 + y == x1 + (x2 + y);
      BodySplits(x1[1..], x2, y);
    }
  }

  lemma FirstOfBody(x: string, y: string, rw: char -> nat)
    requires x != "" && BodyThen(x, y)
    ensures x == [x[0]] + x[1..] && x + y == [x[0]] + (x[1..] + y)
    ensures CsiLen([x[0]] + (x[1..] + y)) == 0 && BodyThen(x[1..], y) && Width(x, rw) == rw(x[0]) + Width(x[1..], rw)
  {
    hide CsiLen;
    assert x + y == [x[0]] + (x[1..] + y);
  }

  lemma Assemble(p: string, front: string, rest: string, r: string)
    ensures p == front + rest ==> front + (rest + r) == p + r
  {
  }

  lemma CutNoBody(y: string, budget: int, rw: char -> nat)
    ensures Width("", rw) == 0 && "" + y == y && "" + Cut(y, budget, rw) == Cut(y, budget, rw)
  {
  }

  lemma {:induction false} CutThroughBody(x: string, y: string, budget: int, rw: char -> nat)
    requires BodyThen(x, y) && Width(x, rw) <= budget
    ensures Cut(x + y, budget, rw) == x + Cut(y, budget - Width(x, rw), rw)
  {
    hide *;
    if x == "" {
      CutNoBody(y, budget, rw);
    } else {
      var c, t := x[0], x[1..] + y;
      FirstOfBody(x, y, rw);
      CutRune(c, t, budget, rw);
      CutThroughBody(x[1..], y, budget - rw(c), rw);
      Assemble(x, [c], x[1..], Cut(y, budget - Width(x, rw), rw));
    }
  }

  lemma {:induction false} WidthSnoc(s: string, k: nat, rw: char -> nat)
    requires k < |s|
    ensures Width(s[..k + 1], rw) == Width(s[..k], rw) + rw(s[k])
  {
    if k > 0 {
      assert s[..k + 1][1..] == s[1..][..k] && s[..k][1..] == s[1..][..k - 1];
      WidthSnoc(s[1..], k - 1, rw);
    } else {
      assert s[..1][1..] == "";
    }
  }

  lemma CutRun(run: string, y: string, budget: int, rw: char -> nat)
    requires CsiLen(run + y) == |run| > 0
    ensures Cut(run + y, budget, rw) == run + Cut(y, budget, rw)
  {
    hide CsiLen;
    assert (run + y)[..|run|] == run && (run + y)[|run|..] == y;
  }

  lemma CutRune(c: char, t: string, budget: int, rw: char -> nat)
    requires CsiLen([c] + t) == 0
    ensures Cut([c] + t, budget, rw) == if rw(c) > budget then "" else [c] + Cut(t, budget - rw(c), rw)
  {
    hide CsiLen;
    assert ([c] + t)[1..] == t;
  }

  lemma SegmentCut(x: string, run: string, y: string, budget: int, rw: char -> nat)
    requires BodyThen(x, run + y) && CsiLen(run + y) == |run| > 0 && Width(x, rw) <= budget
    ensures Cut(x + (run + y), budget, rw) == x + run + Cut(y, budget - Width(x, rw), rw)
  {
    hide CsiLen, BodyThen, Width, Cut;
    CutThroughBody(x, run + y, budget, rw);
    CutRun(run, y, budget - Width(x, rw), rw);
  }

  lemma StopsInBody(x: string, y: string, k: nat, budget: int, rw: char -> nat)
    requires k < |x| && BodyThen(x, y)
    requires Width(x[..k], rw) <= budget < Width(x[..k], rw) + rw(x[k])
    ensures Cut(x + y, budget, rw) == x[..k]
  {
    var x1, x2 := x[..k], x[k..];
    assert x == x1 + x2;
    BodySplits(x1, x2, y);
    CutThroughBody(x1, x2 + y, budget, rw);
    assert x1 + x2 + y == x1 + (x2 + y);
    hide CsiLen, Width;
    assert (x2 + y)[0] == x[k];
    assert Cut(x2 + y, budget - Width(x1, rw), rw) == "";
    assert x1 + "" == x1;
  }

  /** `writeBodyUpToBudget`: all of `body`, or as much as the budget holds. */
  method WriteBodyUpToBudget(out0: string, body: string, visible0: nat, budget: int, rw: char -> nat)
    returns (out: string, visible: nat, ok: bool, ghost k: nat)
    requires visible0 <= budget
    ensures k <= |body| && out == out0 + body[..k] && visible == visible0 + Width(body[..k], rw) && visible <= budget
    ensures if ok then k == |body| else k < |body| && visible + rw(body[k]) > budget
  {
    out, visible := out0, visible0;
    var i := 0;
    while i < |body|
      invariant 0 <= i <= |body|
      invariant out == out0 + body[..i] && visible == visible0 + Width(body[..i], rw) && visible <= budget
    {
      var w := rw(body[i]);
      if visible + w > budget {
        return out, visible, false, i;
      }
      WidthSnoc(body, i, rw);
      assert body[..i + 1] == body[..i] + [body[i]];
      out := out + [body[i]];
      visible := visible + w;
      i := i + 1;
    }
    return out, visible, true, i;
  }

  method BannerTruncate(s: string, w: int, rw: char -> nat) returns (r: string)
    ensures r == Truncated(s, w, rw)
  {
    hide CsiLen, StripCsi, EnsureReset, Cut, FindRuns, BodyThen, Width;
    if w <= 0 {
      return "";
    }
    if VisualWidth(s, rw) <= w {
      return EnsureReset(s);
    }
    var budget := w - 1;
    var out, visible: nat, cursor: nat := "", 0, 0;
    var locs := FindRuns(s, 0);
    var i := 0;
    assert s[0..] == s && "" + Cut(s, budget, rw) == Cut(s, budget, rw);
    while i < |locs|
      invariant 0 <= i <= |locs| && cursor <= |s| && visible <= budget
      invariant locs[i..] == FindRuns(s[cursor..], cursor)
      invariant Cut(s, budget, rw) == out + Cut(s[cursor..], budget - visible, rw)
    {
      var (a, b) := locs[i];
      ghost var left, before := budget - visible, out;
      ghost var x, run, y := NextRun(s[cursor..], cursor);
      assert locs[i..][0] == locs[i] && locs[i..][1..] == locs[i + 1..];
      Pieces(s, cursor, x, run, y);
      var ok;
      ghost var k;
      out, visible, ok, k := WriteBodyUpToBudget(out, s[cursor..a], visible, budget, rw);
      if !ok {
        StopsInBody(x, run + y, k, left, rw);
        return EnsureReset(out + [ELLIPSIS]);
      }
      assert x[..k] == x;
      SegmentCut(x, run, y, left, rw);
      Reassociate(before, x, run, Cut(y, budget - visible, rw));
      out := out + s[a..b];
      cursor := b;
      i := i + 1;
    }
    ghost var t, left, before := s[cursor..], budget - visible, out;
    assert locs[i..] == [];
    NoRun(t, cursor);
    var ok;
    ghost var k;
    out, visible, ok, k := WriteBodyUpToBudget(out, s[cursor..], visible, budget, rw);
    assert t + "" == t;
    if !ok {
      StopsInBody(t, "", k, left, rw);
      return EnsureReset(out + [ELLIPSIS]);
    }
    assert t[..k] == t;
    CutThroughBody(t, "", left, rw);
    CutNothing(left - Width(t, rw), rw);
    return EnsureReset(out + [ELLIPSIS]);
  }

  lemma Pieces(s: string, cursor: nat, x: string, run: string, y: string)
    requires cursor <= |s| && s[cursor..] == x + (run + y)
    ensures var a, b := cursor + |x|, cursor + |x| + |run|;
      b <= |s| && s[cursor..a] == x && s[a..b] == run && s[b..] == y
  {
  }

  lemma Reassociate(a: string, b: string, c: string, d: string)
    ensures a + (b + c + d) == a + b + c + d
  {
  }

  lemma CutNothing(budget: int, rw: char -> nat)
    ensures Cut("", budget, rw) == ""
  {
  }

  // ------------------------------------------------------- runs and prefixes

  /** Runes with which nothing can be a parameter, the bracket or the end of a run. */
  predicate Neutral(c: char) { !IsParam(c) && !IsLetter(c) && c != '[' }

  lemma {:induction false} ParamsOfPrefix(q: string, t: string)
    ensures Params(q) < |q| ==> Params(q + t) == Params(q)
    ensures Params(q) == |q| ==> Params(q + t) == |q| + Params(t)
  {
    if q == "" {
      assert q + t == t;
    } else {
      assert (q + t)[1..] == q[1..] + t;
      ParamsOfPrefix(q[1..], t);
    }
  }

  /** A run is read from its own runes: text behind it does not matter. */
  lemma CsiOfPrefix(q: string, t: string)
    ensures CsiLen(q) > 0 ==> CsiLen(q + t) == CsiLen(q)
  {
    if CsiLen(q) > 0 {
      assert (q + t)[2..] == q[2..] + t;
      ParamsOfPrefix(q[2..], t);
    }
  }

  lemma CsiAlone(s: string)
    requires CsiLen(s) > 0
    ensures CsiLen(s[..CsiLen(s)]) == CsiLen(s)
  {
    var n := CsiLen(s);
    var q := s[..n];
    assert s[2..] == q[2..] + s[n..];
    ParamsOfPrefix(q[2..], s[n..]);
    assert !IsParam(q[2..][n - 3]) by { assert q[2..][n - 3] == s[n - 1]; }
  }

  /** What follows cannot complete a run that has begun. */
  lemma CsiNotCompleted(p: string, t: string)
    requires p != "" && t != "" && Neutral(t[0])
    ensures CsiLen(p) == 0 ==> CsiLen(p + t) == 0
  {
    if CsiLen(p) == 0 && |p| >= 2 {
      assert (p + t)[2..] == p[2..] + t;
      ParamsOfPrefix(p[2..], t);
      assert Params(p[2..]) == |p[2..]| ==> (p + t)[|p|] == t[0];
    } else if |p| == 1 {
      assert (p + t)[1] == t[0];
    }
  }

  lemma {:induction false} StripConcat(p: string, t: string)
    requires t != "" ==> Neutral(t[0])
    ensures StripCsi(p + t) == StripCsi(p) + StripCsi(t)
  {
    if t == "" {
      assert p + t == p;
    } else if p == "" {
      assert p + t == t;
    } else if CsiLen(p) > 0 {
      var n := CsiLen(p);
      CsiOfPrefix(p, t);
      assert (p + t)[n..] == p[n..] + t;
      StripConcat(p[n..], t);
    } else {
      CsiNotCompleted(p, t);
      assert (p + t)[1..] == p[1..] + t;
      StripConcat(p[1..], t);
    }
  }

  lemma {:induction false} WidthConcat(x: string, y: string, rw: char -> nat)
    ensures Width(x + y, rw) == Width(x, rw) + Width(y, rw)
  {
    if x == "" {
      assert x + y == y;
    } else {
      assert (x + y)[1..] == x[1..] + y;
      WidthConcat(x[1..], y, rw);
    }
  }

  /** Appending the reset never changes the visual width, not even behind an
      escape that was left unfinished. */
  lemma ResetIsInvisible(s: string, rw: char -> nat)
    ensures VisualWidth(s + RESET, rw) == VisualWidth(s, rw)
    ensures VisualWidth(EnsureReset(s), rw) == VisualWidth(s, rw)
  {
    StripConcat(s, RESET);
    ResetIsARun();
    assert StripCsi(s) + "" == StripCsi(s);
  }

  lemma ResetIsARun()
    ensures StripCsi(RESET) == ""
  {
    assert RESET[2..] == "0m" && RESET[2..][1..] == "m";
    assert Params(RESET[2..]) == 1;
    assert CsiLen(RESET) == 4 && RESET[4..] == "";
  }

  // ------------------------------------------------------------------ the cut

  /** Where and why a line is cut into `p` and `rest`: before a body rune that
      would overflow, with the runs on either side whole. */
  ghost predicate CutAt(p: string, rest: string, budget: int, rw: char -> nat) {
    && StripCsi(p + rest) == StripCsi(p) + StripCsi(rest)
    && VisualWidth(p, rw) <= budget
    && (rest != "" ==> CsiLen(rest) == 0 && VisualWidth(p, rw) + rw(rest[0]) > budget)
  }

  lemma StripRun(run: string, y: string)
    requires CsiLen(run + y) == |run| > 0
    ensures StripCsi(run + y) == StripCsi(y)
  {
    assert (run + y)[|run|..] == y;
  }

  /** `s` is cut into `p` and `rest`. */
  ghost predicate Greedy(s: string, p: string, rest: string, budget: int, rw: char -> nat) {
    s == p + rest && CutAt(p, rest, budget, rw)
  }

  lemma GreedyPastRun(run: string, y: string, p: string, rest: string, budget: int, rw: char -> nat)
    requires CsiLen(run) == |run| > 0 && Greedy(y, p, rest, budget, rw)
    ensures Greedy(run + y, run + p, rest, budget, rw)
  {
    CsiOfPrefix(run, p);
    CsiOfPrefix(run, p + rest);
    hide CsiLen, Width;
    StripRun(run, p);
    StripRun(run, p + rest);
    hide StripCsi;
    assert run + p + rest == run + (p + rest);
  }

  lemma GreedyPastRune(c: char, t: string, p: string, rest: string, budget: int, rw: char -> nat)
    requires CsiLen([c] + t) == 0 && Greedy(t, p, rest, budget - rw(c), rw)
    ensures Greedy([c] + t, [c] + p, rest, budget, rw)
  {
    assert [c] + p + rest == [c] + (p + rest);
    CsiOfPrefix([c] + p, rest);
    hide CsiLen, Width;
    StripRune(c, p);
    StripRune(c, p + rest);
    hide StripCsi;
    WidthConcat([c], StripCsi(p), rw);
    WidthOfRune(c, rw);
    Prepended(c, StripCsi(p), StripCsi(rest));
  }

  lemma Prepended(c: char, x: string, y: string)
    ensures [c] + (x + y) == [c] + x + y
  {
  }

  lemma GreedyStop(s: string, budget: int, rw: char -> nat)
    requires budget >= 0 && CsiLen(s) == 0 && (s != "" ==> rw(s[0]) > budget)
    ensures Greedy(s, "", s, budget, rw) && Cut(s, budget, rw) == ""
  {
    hide CsiLen;
    assert "" + s == s;
    assert StripCsi("") == "" && "" + StripCsi(s) == StripCsi(s);
  }

  lemma WidthOfRune(c: char, rw: char -> nat)
    ensures Width([c], rw) == rw(c)
  {
    assert [c][1..] == "";
  }

  lemma StripRune(c: char, t: string)
    requires CsiLen([c] + t) == 0
    ensures StripCsi([c] + t) == [c] + StripCsi(t)
  {
    hide CsiLen;
    assert ([c] + t)[1..] == t;
  }

  lemma {:induction false} CutIsGreedy(s: string, budget: int, rw: char -> nat) returns (rest: string)
    requires budget >= 0
    ensures Greedy(s, Cut(s, budget, rw), rest, budget, rw)
  {
    hide CsiLen, Greedy, Cut;
    if CsiLen(s) > 0 {
      var run, y := s[..CsiLen(s)], s[CsiLen(s)..];
      assert s == run + y;
      rest := CutIsGreedy(y, budget, rw);
      CsiAlone(s);
      CutRun(run, y, budget, rw);
      GreedyPastRun(run, y, Cut(y, budget, rw), rest, budget, rw);
    } else if s != "" && rw(s[0]) <= budget {
      var c, t := s[0], s[1..];
      assert s == [c] + t;
      rest := CutIsGreedy(t, budget - rw(c), rw);
      CutRune(c, t, budget, rw);
      GreedyPastRune(c, t, Cut(t, budget - rw(c), rw), rest, budget, rw);
    } else {
      rest := s;
      GreedyStop(s, budget, rw);
    }
  }

  /** A line that is too wide is cut once: the result is a prefix of the line
      with its runs whole, the ellipsis, and at most one reset; the prefix ends
      at the first body rune that would leave no room for the ellipsis. */
  lemma TruncationIsGreedy(s: string, w: int, rw: char -> nat)
    requires 0 < w < VisualWidth(s, rw)
    ensures exists p, rest :: s == p + rest && rest != "" && CutAt(p, rest, w - 1, rw)
                           && Truncated(s, w, rw) == EnsureReset(p + ['…'])
  {
    var p := Cut(s, w - 1, rw);
    var rest := CutIsGreedy(s, w - 1, rw);
    hide Cut, CsiLen, StripCsi, Width, EnsureReset;
    assert rest == "" ==> p + rest == p;
    assert CutAt(p, rest, w - 1, rw);
  }

  /** How wide the result is, for any width of the ellipsis: a line that fits
      keeps its width, and a line that is cut has the width of the cut and the
      ellipsis, so it is never wider than asked unless the ellipsis takes more
      than one column, and then exactly when the cut leaves too little for it. */
  lemma TruncationFits(s: string, w: int, rw: char -> nat)
    ensures w <= 0 ==> Truncated(s, w, rw) == ""
    ensures w > 0 && VisualWidth(s, rw) <= w ==> VisualWidth(Truncated(s, w, rw), rw) == VisualWidth(s, rw)
    ensures 0 < w < VisualWidth(s, rw) ==>
              VisualWidth(Truncated(s, w, rw), rw) == VisualWidth(Cut(s, w - 1, rw), rw) + rw(ELLIPSIS)
              <= w - 1 + rw(ELLIPSIS)
    ensures rw(ELLIPSIS) <= 1 && w > 0 ==> VisualWidth(Truncated(s, w, rw), rw) <= w
  {
    hide Cut, CsiLen, EnsureReset;
    if w > 0 {
      if VisualWidth(s, rw) <= w {
        ResetIsInvisible(s, rw);
      } else {
        var p := Cut(s, w - 1, rw);
        var rest := CutIsGreedy(s, w - 1, rw);
        var e := [ELLIPSIS];
        StripConcat(p, e);
        EllipsisIsBody(rw);
        WidthConcat(StripCsi(p), e, rw);
        ResetIsInvisible(p + e, rw);
      }
    }
  }

  lemma EllipsisIsBody(rw: char -> nat)
    ensures StripCsi([ELLIPSIS]) == [ELLIPSIS] && Width([ELLIPSIS], rw) == rw(ELLIPSIS)
  {
    assert [ELLIPSIS][1..] == "";
  }

  lemma ResetEnds(s: string)
    ensures var r := EnsureReset(s);
      (Index(r, [ESC, '[']) >= 0 ==> EndsWithReset(r)) && EnsureReset(r) == r
  {
    assert (s + RESET)[|s|..] == RESET;
  }

  /** The first piece of `p`: a run, or one rune. */
  function Piece(p: string): (n: nat)
    requires p != ""
    ensures 0 < n <= |p|
  {
    if CsiLen(p) > 0 then CsiLen(p) else 1
  }

  /** A cut goes through whatever fits, as long as what follows completes no run. */
  lemma {:induction false} CutThrough(p: string, t: string, budget: int, rw: char -> nat)
    requires t != "" && Neutral(t[0]) && VisualWidth(p, rw) <= budget
    ensures Cut(p + t, budget, rw) == p + Cut(t, budget - VisualWidth(p, rw), rw)
    decreases |p|
  {
    hide CsiLen, Neutral, Cut, VisualWidth, Piece;
    if p == "" {
      CutThroughNothing(t, budget, rw);
    } else {
      var front, rest := p[..Piece(p)], p[Piece(p)..];
      PieceWidth(p, front, rest, rw);
      PieceCut(p, front, rest, t, budget, rw);
      CutThrough(rest, t, budget - VisualWidth(front, rw), rw);
      Assemble(p, front, rest, Cut(t, budget - VisualWidth(p, rw), rw));
    }
  }

  lemma CutThroughNothing(t: string, budget: int, rw: char -> nat)
    ensures VisualWidth("", rw) == 0 && "" + t == t && "" + Cut(t, budget, rw) == Cut(t, budget, rw)
  {
  }

  lemma PieceWidth(p: string, front: string, rest: string, rw: char -> nat)
    requires p != "" && front == p[..Piece(p)] && rest == p[Piece(p)..]
    ensures p == front + rest && VisualWidth(p, rw) == VisualWidth(front, rw) + VisualWidth(rest, rw)
  {
    hide Width;
    assert p == front + rest;
    if CsiLen(p) > 0 {
      CsiAlone(p);
      assert front + "" == front;
      StripRun(front, "");
      StripRun(front, rest);
      NoWidth(rw);
    } else {
      assert front == [p[0]] && p == [p[0]] + rest;
      StripRune(p[0], rest);
      WidthConcat([p[0]], StripCsi(rest), rw);
      OneRune(p[0], rw);
    }
  }

  lemma NoWidth(rw: char -> nat)
    ensures Width("", rw) == 0 && StripCsi("") == ""
  {
  }

  lemma PieceCut(p: string, front: string, rest: string, t: string, budget: int, rw: char -> nat)
    requires p != "" && front == p[..Piece(p)] && rest == p[Piece(p)..]
    requires t != "" && Neutral(t[0]) && VisualWidth(front, rw) <= budget
    ensures Cut(p + t, budget, rw) == front + Cut(rest + t, budget - VisualWidth(front, rw), rw)
  {
    hide Neutral, Cut;
    assert p == front + rest && p + t == front + (rest + t);
    if CsiLen(p) > 0 {
      CsiOfPrefix(p, t);
      CsiAlone(p);
      assert front + "" == front;
      StripRun(front, "");
      CutRun(front, rest + t, budget, rw);
    } else {
      CsiNotCompleted(p, t);
      assert front == [p[0]];
      OneRune(p[0], rw);
      CutRune(p[0], rest + t, budget, rw);
    }
  }

  lemma OneRune(c: char, rw: char -> nat)
    ensures Width([c], rw) == rw(c) && StripCsi([c]) == [c]
  {
    assert [c][1..] == "";
  }

  /** A result that holds an escape ends in the reset, and truncating again
      changes nothing, whatever the width of the ellipsis. */
  lemma TruncationIsIdempotent(s: string, w: int, rw: char -> nat)
    ensures var r := Truncated(s, w, rw);
      Truncated(r, w, rw) == r && (Index(r, [ESC, '[']) >= 0 ==> EndsWithReset(r))
  {
    hide EnsureReset, Cut;
    TruncationFits(s, w, rw);
    ResetEnds(s);
    ResetEnds(Cut(s, w - 1, rw) + [ELLIPSIS]);
    NoEscapeInNothing();
    var r := Truncated(s, w, rw);
    if 0 < w < VisualWidth(r, rw) {
      CutAgain(s, w, rw);
    }
  }

  /** A result made too wide by its ellipsis is cut again at the same place. */
  lemma CutAgain(s: string, w: int, rw: char -> nat)
    requires 0 < w < VisualWidth(s, rw) && w < VisualWidth(Truncated(s, w, rw), rw)
    ensures Cut(Truncated(s, w, rw), w - 1, rw) == Cut(s, w - 1, rw)
  {
    hide Cut, VisualWidth, CsiLen, Index;
    var p := Cut(s, w - 1, rw);
    TruncationFits(s, w, rw);
    CutFits(s, w - 1, rw);
    var t := Truncated(s, w, rw)[|p|..];
    assert Truncated(s, w, rw) == p + t && t != "" && t[0] == ELLIPSIS;
    CutThrough(p, t, w - 1, rw);
    CutNothingWide(t, w - 1 - VisualWidth(p, rw), rw);
    assert p + "" == p;
  }

  lemma CutFits(s: string, budget: int, rw: char -> nat)
    requires budget >= 0
    ensures VisualWidth(Cut(s, budget, rw), rw) <= budget
  {
    var rest := CutIsGreedy(s, budget, rw);
  }

  lemma CutNothingWide(t: string, budget: int, rw: char -> nat)
    requires t != "" && t[0] == ELLIPSIS && rw(ELLIPSIS) > budget
    ensures Cut(t, budget, rw) == ""
  {
  }

  lemma NoEscapeInNothing()
    ensures Index("", [ESC, '[']) < 0
  {
  }

  // ---------------------------------------------------------- when it is reset

  /** What has to fit for the first escape of `s`, at `i`, to come through: the
      text in front of a run, and of a dangling escape its two runes as well. */
  function UpToEscape(s: string, i: nat): string
    requires OccursAt(s, [ESC, '['], i)
  {
    if CsiLen(s[i..]) > 0 then s[..i] else s[..i + 2]
  }

  lemma {:induction false} BodyBefore(x: string, y: string)
    requires forall j: nat :: j < |x| ==> !OccursAt(x + y, [ESC, '['], j)
    ensures BodyThen(x, y)
  {
    if x != "" {
      var s := x + y;
      assert s[1..] == x[1..] + y;
      forall j: nat | j < |x| - 1 ensures !OccursAt(s[1..], [ESC, '['], j) {
        OccursInTail(s, [ESC, '['], j + 1);
      }
      BodyBefore(x[1..], y);
      RunOccurs(s);
    }
  }

  lemma RunOccurs(s: string)
    ensures CsiLen(s) > 0 ==> OccursAt(s, [ESC, '['], 0)
  {
    assert CsiLen(s) > 0 ==> s[0..2] == [ESC, '['];
  }

  lemma RunOccursAt(s: string, from: nat)
    requires from <= |s|
    ensures CsiLen(s[from..]) > 0 ==> OccursAt(s, [ESC, '['], from) && s[from] == ESC
  {
    RunOccurs(s[from..]);
    assert s == s[..from] + s[from..];
    OccursShift(s[..from], s[from..], [ESC, '['], 0);
  }

  /** A cut reaches the end of body runes exactly when they fit. */
  lemma {:induction false} CutReaches(x: string, y: string, budget: int, rw: char -> nat)
    requires BodyThen(x, y) && budget >= 0
    ensures |Cut(x + y, budget, rw)| >= |x| <==> Width(x, rw) <= budget
  {
    hide CsiLen;
    if Width(x, rw) <= budget {
      CutThroughBody(x, y, budget, rw);
    } else {
      var c, t := x[0], x[1..] + y;
      assert x + y == [c] + t;
      CutRune(c, t, budget, rw);
      if rw(c) <= budget {
        CutReaches(x[1..], y, budget - rw(c), rw);
      }
    }
  }

  lemma CutHoldsRun(x: string, y: string, budget: int, rw: char -> nat)
    requires BodyThen(x, y) && CsiLen(y) > 0 && budget >= 0
    ensures |Cut(x + y, budget, rw)| >= |x| + 2 <==> Width(x, rw) <= budget
  {
    hide Cut, Width, BodyThen;
    CutReaches(x, y, budget, rw);
    if Width(x, rw) <= budget {
      var run, rest := y[..CsiLen(y)], y[CsiLen(y)..];
      assert y == run + rest && |run| >= 3;
      hide CsiLen;
      CutThroughBody(x, y, budget, rw);
      CutRun(run, rest, budget - Width(x, rw), rw);
    }
  }

  /** A cut takes in the first escape exactly when what is up to it fits. */
  lemma CutHoldsEscape(s: string, i: nat, budget: int, rw: char -> nat)
    requires Index(s, [ESC, '[']) == i && budget >= 0
    ensures |Cut(s, budget, rw)| >= i + 2 <==> Width(UpToEscape(s, i), rw) <= budget
  {
    hide Cut, Width, CsiLen, BodyThen;
    if CsiLen(s[i..]) > 0 {
      assert s == s[..i] + s[i..];
      BodyBefore(s[..i], s[i..]);
      CutHoldsRun(s[..i], s[i..], budget, rw);
    } else {
      assert s == s[..i + 2] + s[i + 2..];
      DanglingBody(s, i);
      CutReaches(s[..i + 2], s[i + 2..], budget, rw);
    }
  }

  lemma DanglingBody(s: string, i: nat)
    requires Index(s, [ESC, '[']) == i && CsiLen(s[i..]) == 0
    ensures BodyThen(s[..i + 2], s[i + 2..])
  {
    assert s == s[..i + 2] + s[i + 2..];
    NoRunsBody(s, s[..i + 2], s[i + 2..], 0, i);
  }

  lemma BracketAt(s: string, i: nat)
    requires OccursAt(s, [ESC, '['], i)
    ensures s[i] == ESC && s[i + 1] == '['
  {
    var two := s[i..i + 2];
    assert two[0] == s[i] && two[1] == s[i + 1];
  }

  /** No run begins in `x`: in front of the first escape there is none, the
      dangling one begins none, and a bracket cannot. */
  lemma {:induction false} NoRunsBody(s: string, x: string, y: string, from: nat, i: nat)
    requires Index(s, [ESC, '[']) == i && CsiLen(s[i..]) == 0 && from <= i + 2
    requires x == s[from..i + 2] && y == s[i + 2..]
    ensures BodyThen(x, y)
    decreases |x|
  {
    if x != "" {
      assert x + y == s[from..];
      NoRunsBody(s, x[1..], y, from + 1, i);
      RunOccursAt(s, from);
      BracketAt(s, i);
    }
  }

  /** A prefix of `s` with the ellipsis holds an escape exactly when it reaches
      over the first escape of `s`. */
  lemma HoldsEscape(s: string, p: string)
    requires p <= s
    ensures Index(p + [ELLIPSIS], [ESC, '[']) >= 0 <==> 0 <= Index(s, [ESC, '[']) <= |p| - 2
  {
    var e := p + [ELLIPSIS];
    var i, j := Index(s, [ESC, '[']), Index(e, [ESC, '[']);
    if j >= 0 {
      BracketAt(e, j);
      assert s[j..j + 2] == e[j..j + 2];
      assert OccursAt(s, [ESC, '['], j);
    }
    if 0 <= i <= |p| - 2 {
      assert e[i..i + 2] == s[i..i + 2];
      assert OccursAt(e, [ESC, '['], i);
    }
  }

  lemma ResetExactly(s: string)
    ensures EndsWithReset(EnsureReset(s)) <==> Index(s, [ESC, '[']) >= 0
  {
    if EndsWithReset(s) {
      assert s[|s| - 4..|s| - 4 + 2] == RESET[..2] == [ESC, '['];
      assert OccursAt(s, [ESC, '['], |s| - 4);
    }
    assert (s + RESET)[|s|..] == RESET;
  }

  /** When a result ends in the reset, for every line: exactly when there is width
      at all, the line holds an escape, and the line fits or what is up to its
      first escape fits in front of the ellipsis. */
  lemma ResetsExactly(s: string, w: int, rw: char -> nat)
    ensures var i := Index(s, [ESC, '[']);
      EndsWithReset(Truncated(s, w, rw)) <==>
        w > 0 && i >= 0 && (VisualWidth(s, rw) <= w || Width(UpToEscape(s, i), rw) <= w - 1)
  {
    hide Cut, Width, VisualWidth, EnsureReset, CsiLen, UpToEscape;
    if w > 0 {
      if VisualWidth(s, rw) <= w {
        ResetExactly(s);
      } else {
        var p := Cut(s, w - 1, rw);
        var rest := CutIsGreedy(s, w - 1, rw);
        ResetExactly(p + [ELLIPSIS]);
        HoldsEscape(s, p);
        if Index(s, [ESC, '[']) >= 0 {
          CutHoldsEscape(s, Index(s, [ESC, '[']), w - 1, rw);
        }
      }
    }
  }

  /** The comment above the function promises a reset whenever the line held an
      escape; this line holds one and is cut in front of it. */
  lemma CutBeforeEscapeIsNotReset()
    ensures var s := "ab" + ([ESC] + "[31m" + "red");
      Index(s, [ESC, '[']) == 2 && CsiLen(s[2..]) == 5 && !EndsWithReset(Truncated(s, 2, c => 1))
  {
    var rw := (c: char) => 1;
    var run := [ESC] + "[31m";
    var t := run + "red";
    var s := "ab" + t;
    RedRun();
    EscapeBehind("ab", t);
    assert s[2..] == t && s[..2] == "ab";
    StripConcat("ab", t);
    StripRun(run, "red");
    PlainWidths(rw);
    WidthConcat("ab", "red", rw);
    ResetsExactly(s, 2, rw);
  }

  lemma RedRun()
    ensures var run := [ESC] + "[31m"; CsiLen(run + "red") == |run| == 5
  {
    var t := [ESC] + "[31m" + "red";
    assert t[2..] == "31mred" && "31mred"[1..] == "1mred" && "1mred"[1..] == "mred";
    assert Params("mred") == 0;
    assert Params("1mred") == 1;
    assert Params("31mred") == 2;
  }

  lemma EscapeBehind(x: string, t: string)
    requires ESC !in x && OccursAt(t, [ESC, '['], 0)
    ensures Index(x + t, [ESC, '[']) == |x|
  {
    var s := x + t;
    OccursShift(x, t, [ESC, '['], 0);
    forall j: nat | j < |x| ensures !OccursAt(s, [ESC, '['], j) {
      assert s[j] == x[j];
      assert j + 2 <= |s| ==> s[j..j + 2][0] == s[j];
    }
    IndexIs(s, [ESC, '['], |x|);
  }

  lemma PlainWidths(rw: char -> nat)
    requires forall c :: rw(c) == 1
    ensures StripCsi("ab") == "ab" && StripCsi("red") == "red" && Width("ab", rw) == 2 && Width("red", rw) == 3
  {
    assert "ab"[1..] == "b" && "b"[1..] == "";
    assert "red"[1..] == "ed" && "ed"[1..] == "d" && "d"[1..] == "";
    assert StripCsi("b") == "b" && StripCsi("d") == "d" && StripCsi("ed") == "ed";
    assert Width("b", rw) == 1 && Width("d", rw) == 1 && Width("ed", rw) == 2;
  }
}
