/** The part of Go's `strings` package that the board's code is written with.

    Strings are sequences of runes, so an index counts runes.  Each function is
    pinned by a contract or by the lemmas below it, never by its own body: a
    search finds the least place, replacing is leftmost and without overlap,
    trimming takes exactly the runes at the ends, and splitting at a newline
    undoes joining with newlines. */
module GoStrings {

  // ---------------------------------------------------------------- searching

  /** `p` occurs in `s` at index `i`. */
  predicate OccursAt(s: string, p: string, i: nat) {
    i + |p| <= |s| && s[i..i + |p|] == p
  }

  ghost predicate Contains(s: string, p: string) {
    exists i: nat :: OccursAt(s, p, i)
  }

  /** An occurrence past the first `|x|` runes is one in what follows them. */
  lemma OccursShift(x: string, t: string, p: string, i: nat)
    ensures OccursAt(x + t, p, |x| + i) <==> OccursAt(t, p, i)
  {
    if i + |p| <= |t| {
      assert (x + t)[|x| + i..|x| + i + |p|] == t[i..i + |p|];
    }
  }

  lemma OccursInTail(s: string, p: string, j: nat)
    requires s != "" && j > 0
    ensures OccursAt(s, p, j) <==> OccursAt(s[1..], p, j - 1)
  {
    assert s == [s[0]] + s[1..];
    OccursShift([s[0]], s[1..], p, j - 1);
  }

  lemma OccursAtFront(s: string, p: string)
    ensures OccursAt(s, p, 0) <==> p <= s
  {
    assert |p| <= |s| ==> s[0..|p|] == s[..|p|];
  }

  /** `strings.Index`: the least index at which `p` occurs, or -1. */
  function Index(s: string, p: string): (r: int)
    ensures -1 <= r
    ensures r >= 0 ==> OccursAt(s, p, r)
    ensures forall j: nat :: (r < 0 || j < r) ==> !OccursAt(s, p, j)
  {
    OccursAtFront(s, p);
    if p <= s then 0
    else if s == "" then -1
    else
      var k := Index(s[1..], p);
      assert forall j: nat :: j > 0 ==> (OccursAt(s, p, j) <==> OccursAt(s[1..], p, j - 1)) by {
        forall j: nat | j > 0 ensures OccursAt(s, p, j) <==> OccursAt(s[1..], p, j - 1) {
          OccursInTail(s, p, j);
        }
      }
      if k < 0 then -1 else k + 1
  }

  /** `strings.IndexAny`: the least index of a rune that satisfies `f`, or -1. */
  function IndexFunc(s: string, f: char -> bool): (r: int)
    ensures -1 <= r < |s|
    ensures r >= 0 ==> f(s[r])
    ensures forall j :: 0 <= j < |s| && (r < 0 || j < r) ==> !f(s[j])
  {
    if s == "" then -1
    else if f(s[0]) then 0
    else
      var k := IndexFunc(s[1..], f);
      assert forall j :: 0 < j < |s| ==> s[j] == s[1..][j - 1];
      if k < 0 then -1 else k + 1
  }

  lemma IndexIs(s: string, p: string, i: nat)
    requires OccursAt(s, p, i)
    requires forall j: nat :: j < i ==> !OccursAt(s, p, j)
    ensures Index(s, p) == i
  {
  }

  /** A one-rune pattern is found at the first place where that rune stands. */
  lemma IndexOfRune(pre: string, c: char, post: string)
    requires c !in pre
    ensures Index(pre + [c] + post, [c]) == |pre|
  {
    var s := pre + [c] + post;
    assert s[|pre|..|pre| + 1] == [c];
    forall j: nat | j < |pre| ensures !OccursAt(s, [c], j) {
      assert s[j] == pre[j];
      assert s[j..j + 1][0] == s[j];
    }
    IndexIs(s, [c], |pre|);
  }

  // ---------------------------------------------------------------- replacing

  /** `strings.ReplaceAll`: leftmost, non-overlapping. */
  function ReplaceAll(s: string, old_: string, new_: string): string
    requires |old_| > 0
  {
    if s == "" then ""
    else if old_ <= s then new_ + ReplaceAll(s[|old_|..], old_, new_)
    else [s[0]] + ReplaceAll(s[1..], old_, new_)
  }

  /** How many occurrences `ReplaceAll` rewrites. */
  ghost function Rewritten(s: string, old_: string): nat
    requires |old_| > 0
  {
    if s == "" then 0
    else if old_ <= s then 1 + Rewritten(s[|old_|..], old_)
    else Rewritten(s[1..], old_)
  }

  lemma ContainsTail(s: string, p: string)
    requires s != "" && !(p <= s)
    ensures Contains(s, p) <==> Contains(s[1..], p)
  {
    OccursAtFront(s, p);
    if i: nat :| OccursAt(s, p, i) {
      OccursInTail(s, p, i);
    }
    if i: nat :| OccursAt(s[1..], p, i) {
      OccursInTail(s, p, i + 1);
      assert OccursAt(s, p, i + 1);
    }
  }

  lemma {:induction false} RewrittenZero(s: string, old_: string)
    requires |old_| > 0
    ensures Rewritten(s, old_) == 0 <==> !Contains(s, old_)
    ensures !Contains(s, old_) ==> forall new_ :: ReplaceAll(s, old_, new_) == s
  {
    if s == "" {
    } else if old_ <= s {
      assert OccursAt(s, old_, 0);
    } else {
      ContainsTail(s, old_);
      RewrittenZero(s[1..], old_);
      assert [s[0]] + s[1..] == s;
    }
  }

  ghost function Count(s: string, c: char): int {
    if s == "" then 0 else (if s[0] == c then 1 else 0) + Count(s[1..], c)
  }

  lemma {:induction false} CountConcat(x: string, y: string, c: char)
    ensures Count(x + y, c) == Count(x, c) + Count(y, c)
  {
    if x == "" {
      assert x + y == y;
    } else {
      assert (x + y)[1..] == x[1..] + y;
      CountConcat(x[1..], y, c);
    }
  }

  lemma OneMore(n: nat, d: int)
    ensures (1 + n) * d == d + n * d
  {
  }

  /** Every rewrite trades the runes of `old_` for the runes of `new_`, so the
      number of times any one rune occurs moves by a multiple of the difference. */
  lemma {:induction false} ReplaceAllCounts(s: string, old_: string, new_: string, c: char)
    requires |old_| > 0
    ensures Count(ReplaceAll(s, old_, new_), c)
         == Count(s, c) + Rewritten(s, old_) * (Count(new_, c) - Count(old_, c))
  {
    if s == "" {
    } else if old_ <= s {
      var rest := s[|old_|..];
      ReplaceAllCounts(rest, old_, new_, c);
      assert s == old_ + rest;
      CountConcat(old_, rest, c);
      CountConcat(new_, ReplaceAll(rest, old_, new_), c);
      OneMore(Rewritten(rest, old_), Count(new_, c) - Count(old_, c));
    } else {
      ReplaceAllCounts(s[1..], old_, new_, c);
      assert ([s[0]] + ReplaceAll(s[1..], old_, new_))[1..] == ReplaceAll(s[1..], old_, new_);
    }
  }

  /** A prefix in which no occurrence can begin is copied. */
  lemma {:induction false} ReplaceAllPrefix(x: string, y: string, old_: string, new_: string)
    requires |old_| > 0 && old_[0] !in x
    ensures ReplaceAll(x + y, old_, new_) == x + ReplaceAll(y, old_, new_)
  {
    if x == "" {
      assert x + y == y;
    } else {
      assert (x + y)[1..] == x[1..] + y;
      ReplaceAllPrefix(x[1..], y, old_, new_);
    }
  }

  lemma ForeignText(y: string, p: string)
    requires |p| > 0 && forall c :: c in y ==> c !in p
    ensures !Contains(y, p)
  {
    forall i: nat ensures !OccursAt(y, p, i) {
      if i + |p| <= |y| {
        assert y[i..i + |p|][0] == y[i] && y[i] in y;
      }
    }
  }

  /** A pattern is not found across the seam to text that shares no rune with it. */
  lemma PrefixBeforeSeam(x: string, y: string, p: string)
    requires forall c :: c in y ==> c !in p
    ensures p <= x + y <==> p <= x
  {
    if |p| <= |x| {
      assert (x + y)[..|p|] == x[..|p|];
    } else if y != "" {
      assert (x + y)[|x|] == y[0] && y[0] in y && p[|x|] in p;
    }
  }

  /** A suffix that shares no rune with the pattern is copied. */
  lemma {:induction false} ReplaceAllSuffix(x: string, y: string, old_: string, new_: string)
    requires |old_| > 0 && forall c :: c in y ==> c !in old_
    ensures ReplaceAll(x + y, old_, new_) == ReplaceAll(x, old_, new_) + y
  {
    if x == "" {
      assert x + y == y;
      ForeignText(y, old_);
      RewrittenZero(y, old_);
    } else {
      PrefixBeforeSeam(x, y, old_);
      var n := if old_ <= x then |old_| else 1;
      assert (x + y)[n..] == x[n..] + y;
      ReplaceAllSuffix(x[n..], y, old_, new_);
    }
  }

  lemma ReplaceAllHit(y: string, old_: string, new_: string)
    requires |old_| > 0
    ensures ReplaceAll(old_ + y, old_, new_) == new_ + ReplaceAll(y, old_, new_)
  {
    assert (old_ + y)[|old_|..] == y;
  }

  /** A text that avoids the replacement's first rune is a prefix of the
      rewritten string only if it was a prefix before. */
  lemma {:induction false} PrefixSurvives(q: string, y: string, old_: string, new_: string)
    requires |old_| > 0 && |new_| > 0 && new_[0] !in q
    requires q <= ReplaceAll(y, old_, new_)
    ensures q <= y
  {
    if q != "" && y != "" {
      assert q[0] in q && q[0] == ReplaceAll(y, old_, new_)[0];
      if !(old_ <= y) {
        var r := ReplaceAll(y[1..], old_, new_);
        assert ([y[0]] + r)[1..] == r;
        assert q[1..] <= r;
        PrefixSurvives(q[1..], y[1..], old_, new_);
        assert q == [q[0]] + q[1..] && y == [y[0]] + y[1..];
      }
    }
  }

  /** The first rune of a rewritten string comes from the string or the replacement. */
  lemma ReplaceAllFirst(s: string, old_: string, new_: string)
    requires s != "" && |old_| > 0 && |new_| > 0
    ensures var r := ReplaceAll(s, old_, new_); r != "" && (r[0] == s[0] || r[0] == new_[0])
  {
  }

  lemma {:induction false} ReplaceAllLast(s: string, old_: string, new_: string)
    requires s != "" && |old_| > 0 && |new_| > 0
    ensures var r := ReplaceAll(s, old_, new_);
      r != "" && (r[|r| - 1] == s[|s| - 1] || r[|r| - 1] == new_[|new_| - 1])
  {
    var n := if old_ <= s then |old_| else 1;
    var rest := s[n..];
    if rest == "" {
      assert ReplaceAll(rest, old_, new_) == "";
    } else {
      ReplaceAllLast(rest, old_, new_);
    }
  }

  // ----------------------------------------------------------------- trimming

  /** `unicode.IsSpace`. */
  predicate IsSpace(c: char) {
    c == ' ' || '\t' <= c <= '\r' || c == '\U{85}' || c == '\U{A0}' || c == '\U{1680}'
    || '\U{2000}' <= c <= '\U{200A}' || c == '\U{2028}' || c == '\U{2029}'
    || c == '\U{202F}' || c == '\U{205F}' || c == '\U{3000}'
  }

  /** The code points of `unicode.IsSpace`, one by one. */
  lemma SpacesAre(c: char)
    ensures IsSpace(c) <==>
              c as int in {9, 10, 11, 12, 13, 32, 0x85, 0xA0, 0x1680, 0x2000, 0x2001, 0x2002, 0x2003, 0x2004, 0x2005,
                           0x2006, 0x2007, 0x2008, 0x2009, 0x200A, 0x2028, 0x2029, 0x202F, 0x205F, 0x3000}
  {
  }

  predicate IsNewline(c: char) { c == '\n' }

  predicate IsCarriageReturn(c: char) { c == '\r' }

  predicate IsBlank(c: char) { c == ' ' || c == '\t' }

  predicate All(s: string, f: char -> bool) { forall i :: 0 <= i < |s| ==> f(s[i]) }

  /** `strings.TrimLeft`. */
  function TrimLeft(s: string, f: char -> bool): (r: string)
    ensures r != "" ==> !f(r[0])
  {
    if s != "" && f(s[0]) then TrimLeft(s[1..], f) else s
  }

  /** `strings.TrimRight`. */
  function TrimRight(s: string, f: char -> bool): (r: string)
    ensures r <= s
    ensures r != "" ==> !f(r[|r| - 1])
  {
    if s != "" && f(s[|s| - 1]) then TrimRight(s[..|s| - 1], f) else s
  }

  function Trim(s: string, f: char -> bool): string { TrimRight(TrimLeft(s, f), f) }

  /** `strings.TrimSpace`. */
  function TrimSpace(s: string): string { Trim(s, IsSpace) }

  /** Trimming is determined by where the untrimmed part begins and ends. */
  lemma {:induction false} TrimLeftIs(pre: string, r: string, f: char -> bool)
    requires All(pre, f) && (r != "" ==> !f(r[0]))
    ensures TrimLeft(pre + r, f) == r
  {
    if pre == "" {
      assert pre + r == r;
    } else {
      assert (pre + r)[1..] == pre[1..] + r;
      TrimLeftIs(pre[1..], r, f);
    }
  }

  lemma {:induction false} TrimRightIs(r: string, post: string, f: char -> bool)
    requires All(post, f) && (r != "" ==> !f(r[|r| - 1]))
    ensures TrimRight(r + post, f) == r
  {
    if post == "" {
      assert r + post == r;
    } else {
      assert (r + post)[..|r + post| - 1] == r + post[..|post| - 1];
      TrimRightIs(r, post[..|post| - 1], f);
    }
  }

  lemma {:induction false} TrimLeftParts(s: string, f: char -> bool) returns (pre: string)
    ensures s == pre + TrimLeft(s, f) && All(pre, f)
  {
    if s != "" && f(s[0]) {
      pre := TrimLeftParts(s[1..], f);
      pre := [s[0]] + pre;
    } else {
      pre := "";
    }
  }

  lemma {:induction false} TrimRightParts(s: string, f: char -> bool) returns (post: string)
    ensures s == TrimRight(s, f) + post && All(post, f)
  {
    if s != "" && f(s[|s| - 1]) {
      post := TrimRightParts(s[..|s| - 1], f);
      post := post + [s[|s| - 1]];
    } else {
      post := "";
    }
  }

  /** Trimming splits a string into a trimmed-away head, a core and a tail. */
  lemma TrimParts(s: string, f: char -> bool) returns (pre: string, post: string)
    ensures s == pre + Trim(s, f) + post && All(pre, f) && All(post, f)
  {
    pre := TrimLeftParts(s, f);
    post := TrimRightParts(TrimLeft(s, f), f);
  }

  lemma TrimIs(pre: string, core: string, post: string, f: char -> bool)
    requires All(pre, f) && All(post, f)
    requires core != "" ==> !f(core[0]) && !f(core[|core| - 1])
    ensures Trim(pre + core + post, f) == core
  {
    if core == "" {
      assert pre + core + post == (pre + post) + "";
      TrimLeftIs(pre + post, "", f);
    } else {
      assert pre + core + post == pre + (core + post);
      TrimLeftIs(pre, core + post, f);
      TrimRightIs(core, post, f);
    }
  }

  lemma TrimEnds(s: string, f: char -> bool)
    ensures var t := Trim(s, f); t != "" ==> !f(t[0]) && !f(t[|t| - 1])
  {
    var l := TrimLeft(s, f);
    assert TrimRight(l, f) != "" ==> TrimRight(l, f)[0] == l[0];
  }

  /** Only what follows a rune that stays can be trimmed from the right. */
  lemma TrimRightKeeps(x: string, y: string, f: char -> bool)
    requires x != "" && !f(x[|x| - 1])
    ensures TrimRight(x + y, f) == x + TrimRight(y, f)
  {
    var post := TrimRightParts(y, f);
    var t := TrimRight(y, f);
    assert x + y == (x + t) + post;
    TrimRightIs(x + t, post, f);
  }

  // ---------------------------------------------------------------- splitting

  /** `strings.SplitSeq` on one rune. */
  function Split(s: string, sep: char): (parts: seq<string>)
    ensures parts != []
  {
    if s == "" then [""]
    else
      var parts := Split(s[1..], sep);
      if s[0] == sep then [""] + parts
      else [[s[0]] + parts[0]] + parts[1..]
  }

  lemma {:induction false} SplitFirst(line: string, rest: string, sep: char)
    requires sep !in line
    ensures Split(line + [sep] + rest, sep) == [line] + Split(rest, sep)
    ensures Split(line, sep) == [line]
  {
    if line == "" {
      assert (line + [sep] + rest)[1..] == rest;
    } else {
      assert (line + [sep] + rest)[1..] == line[1..] + [sep] + rest;
      SplitFirst(line[1..], rest, sep);
      assert [line[0]] + line[1..] == line;
    }
  }

  // -------------------------------------------------------------------- lines

  /** The lines of `ts`, each ended by a newline. */
  function Unlines(ts: seq<string>): string {
    if ts == [] then "" else ts[0] + "\n" + Unlines(ts[1..])
  }

  lemma {:induction false} UnlinesConcat(xs: seq<string>, ys: seq<string>)
    ensures Unlines(xs + ys) == Unlines(xs) + Unlines(ys)
  {
    if xs == [] {
      assert xs + ys == ys;
    } else {
      assert (xs + ys)[1..] == xs[1..] + ys;
      UnlinesConcat(xs[1..], ys);
    }
  }

  lemma UnlinesOne(t: string)
    ensures Unlines([t]) == t + "\n"
  {
    assert Unlines([t]) == t + "\n" + Unlines([]);
  }

  ghost predicate SingleLines(ts: seq<string>) {
    forall i :: 0 <= i < |ts| ==> '\n' !in ts[i]
  }

  lemma {:induction false} SplitUnlines(ts: seq<string>, tail: string)
    requires SingleLines(ts)
    ensures Split(Unlines(ts) + tail, '\n') == ts + Split(tail, '\n')
  {
    hide Split;
    if ts == [] {
      assert Unlines(ts) + tail == tail;
    } else {
      var rest := Unlines(ts[1..]);
      SplitUnlines(ts[1..], tail);
      SplitFirst(ts[0], rest + tail, '\n');
      Regroup(ts[0], "\n", rest, tail);
      assert [ts[0]] + (ts[1..] + Split(tail, '\n')) == ts + Split(tail, '\n');
    }
  }

  lemma Regroup(a: string, b: string, c: string, d: string)
    ensures a + b + c + d == a + b + (c + d)
  {
  }
}
