/** The in-band sentinel of the article format (internal/markdown/markdown.go): how a
    body that contains it is escaped and unescaped, and where the body is cut. */
module Sentinel {
  // The proofs are about any sentinel, marker and placeholder with what `Markers`
  // says of them.

  import opened GoStrings

  const SENTINEL := "<!-- sshbbs:pushes -->"
  const MARKER := "<!-- sshbbs:literal -->"
  const PLACEHOLDER := "\0LITERAL_MARKED\0"

  /** What the proofs use of the three strings: sentinel and marker begin with a
      rune they contain only once, so neither overlaps itself or the other; they
      differ before either ends; the placeholder shares no rune with them and its
      first rune stands in it twice. */
  ghost predicate Markers(s: string, m: string, p: string) {
    && |s| > 0 && |m| > 0 && |p| > 0
    && m[0] == s[0]
    && s[0] !in s[1..] && s[0] !in m[1..]
    && (exists k :: 0 <= k < |s| && k < |m| && s[k] != m[k])
    && s[0] !in p && p[0] !in s && p[0] !in m && Count(p, p[0]) == 2
    && '\n' !in s && '\n' !in m && '\n' !in p
  }

  lemma TheMarkers()
    ensures Markers(SENTINEL, MARKER, PLACEHOLDER)
  {
    LeadsOnce();
    NoSharedRunes();
    NoNewlines();
    Differ(SENTINEL, MARKER, 12);
    CountEnds(PLACEHOLDER, "LITERAL_MARKED", '\0');
  }

  lemma LeadsOnce()
    ensures '<' !in SENTINEL[1..] && '<' !in MARKER[1..]
  {
    assert forall i :: 0 < i < |SENTINEL| ==> SENTINEL[i] != '<';
    assert forall i :: 0 < i < |MARKER| ==> MARKER[i] != '<';
  }

  lemma NoSharedRunes()
    ensures '<' !in PLACEHOLDER && '\0' !in SENTINEL && '\0' !in MARKER
  {
  }

  lemma NoNewlines()
    ensures '\n' !in SENTINEL && '\n' !in MARKER && '\n' !in PLACEHOLDER
  {
  }

  lemma Differ(s: string, m: string, k: nat)
    requires k < |s| && k < |m| && s[k] != m[k]
    ensures exists k :: 0 <= k < |s| && k < |m| && s[k] != m[k]
  {
  }

  // ----------------------------------------------------------------- escaping

  /** The three passes that `Format` makes over a body that holds a sentinel. */
  function Rewrite(b: string, s: string, m: string, p: string): string
    requires |s| > 0 && |p| > 0
  {
    ReplaceAll(ReplaceAll(ReplaceAll(b, s + m, p), s, s + m), p, s + m)
  }

  function Escape(b: string): string {
    if Index(b, SENTINEL) >= 0 then Rewrite(b, SENTINEL, MARKER, PLACEHOLDER) else b
  }

  /** `stripLiteralMarkers` */
  function Strip(b: string): string {
    ReplaceAll(b, SENTINEL + MARKER, SENTINEL)
  }

  /** The last two passes followed by the strip are one pass that turns
      placeholders into sentinels. */
  lemma {:induction false} MarkThenStrip(c: string, s: string, m: string, p: string)
    requires Markers(s, m, p)
    ensures ReplaceAll(ReplaceAll(ReplaceAll(c, s, s + m), p, s + m), s + m, s) == ReplaceAll(c, p, s)
  {
    var sm := s + m;
    if c == "" {
    } else if s <= c {
      var c' := c[|s|..];
      assert c == s + c';
      ReplaceAllHit(c', s, sm);
      ReplaceAllPrefix(sm, ReplaceAll(c', s, sm), p, sm);
      ReplaceAllHit(ReplaceAll(ReplaceAll(c', s, sm), p, sm), sm, s);
      MarkThenStrip(c', s, m, p);
      ReplaceAllPrefix(s, c', p, s);
    } else if p <= c {
      var c' := c[|p|..];
      assert c == p + c';
      ReplaceAllPrefix(p, c', s, sm);
      ReplaceAllHit(ReplaceAll(c', s, sm), p, sm);
      ReplaceAllHit(ReplaceAll(ReplaceAll(c', s, sm), p, sm), sm, s);
      MarkThenStrip(c', s, m, p);
    } else {
      var c' := c[1..];
      var once := ReplaceAll(c', s, sm);
      var twice := ReplaceAll(once, p, sm);
      NoFalsePrefix(c[0], c', p, s, sm);
      assert !(p <= [c[0]] + once);
      assert ([c[0]] + once)[1..] == once;
      assert !(sm <= [c[0]] + twice) by {
        NoFalsePrefix(c[0], c', s, s, sm);
        NoFalsePrefix(c[0], once, s, p, sm);
      }
      assert ([c[0]] + twice)[1..] == twice;
      MarkThenStrip(c', s, m, p);
    }
  }

  /** Rewriting what follows a rune makes no new match at that rune. */
  lemma NoFalsePrefix(c: char, y: string, q: string, old_: string, new_: string)
    requires |q| > 0 && |old_| > 0 && |new_| > 0 && new_[0] !in q[1..]
    ensures q <= [c] + ReplaceAll(y, old_, new_) ==> q <= [c] + y
  {
    if q <= [c] + ReplaceAll(y, old_, new_) {
      assert ([c] + ReplaceAll(y, old_, new_))[1..] == ReplaceAll(y, old_, new_);
      PrefixSurvives(q[1..], y, old_, new_);
      assert q == [c] + q[1..];
    }
  }

  lemma ContainsIndex(b: string, p: string)
    ensures Contains(b, p) <==> Index(b, p) >= 0
  {
  }

  /** Unescaping an escaped body: exactly when it gives the body back.  A body
      without a sentinel always survives; one with a sentinel survives unless it
      holds a sentinel that is already marked, or the placeholder itself. */
  lemma StripUndoesEscape(b: string)
    ensures Strip(Escape(b)) == b
       <==> (!Contains(b, SENTINEL)
             || (!Contains(b, SENTINEL + MARKER) && !Contains(b, PLACEHOLDER)))
  {
    TheMarkers();
    ContainsIndex(b, SENTINEL);
    StripUndoesRewrite(b, SENTINEL, MARKER, PLACEHOLDER);
    ContainsFirstPart(b, SENTINEL, MARKER);
    RewrittenZero(b, SENTINEL + MARKER);
  }

  /** The comment in the code promises to leave a body alone that has its marker
      already.  Escaping does, but reading the escaped body takes the marker away. */
  lemma MarkedSentinelLosesMarker()
    ensures var b := SENTINEL + MARKER;
      Escape(b) == b && Strip(Escape(b)) == SENTINEL && SENTINEL != b
  {
    var b := SENTINEL + MARKER;
    TheMarkers();
    ContainsIndex(b, SENTINEL);
    assert b[0..|SENTINEL|] == SENTINEL;
    assert OccursAt(b, SENTINEL, 0);
    WholeMarked(SENTINEL, MARKER, PLACEHOLDER);
  }

  lemma WholeMarked(s: string, m: string, p: string)
    requires Markers(s, m, p)
    ensures Rewrite(s + m, s, m, p) == s + m && ReplaceAll(s + m, s + m, s) == s && |s| < |s + m|
  {
    ReplaceWhole(s + m, p);
    ReplaceWhole(s + m, s);
    ReplaceWhole(p, s + m);
    NothingToReplace(p, s, s + m);
  }

  lemma ReplaceWhole(x: string, y: string)
    requires x != ""
    ensures ReplaceAll(x, x, y) == y
  {
    assert x[|x|..] == "" && y + "" == y;
    assert ReplaceAll("", x, y) == "";
  }

  lemma {:induction false} NothingToReplace(t: string, x: string, y: string)
    requires x != "" && x[0] !in t
    ensures ReplaceAll(t, x, y) == t
  {
    if t != "" {
      assert t[0] != x[0];
      NothingToReplace(t[1..], x, y);
    }
  }

  lemma {:induction false} StripUndoesRewrite(b: string, s: string, m: string, p: string)
    requires Markers(s, m, p)
    ensures ReplaceAll(Rewrite(b, s, m, p), s + m, s) == b
       <==> !Contains(b, s + m) && !Contains(b, p)
  {
    var c := ReplaceAll(b, s + m, p);
    MarkThenStrip(c, s, m, p);
    RewrittenZero(b, s + m);
    RewrittenZero(c, p);
    Trades(b, s, m, p);
  }

  lemma ContainsFirstPart(b: string, x: string, y: string)
    ensures Contains(b, x + y) ==> Contains(b, x)
  {
    if i: nat :| OccursAt(b, x + y, i) {
      assert b[i..i + |x|] == (x + y)[..|x|] == x;
      assert OccursAt(b, x, i);
    }
  }

  /** A marked sentinel costs two of its lead rune and gives none back until its
      placeholder gives one; the NULs at the placeholder's ends move the other
      way.  Both counts balance only when nothing was rewritten. */
  lemma Trades(b: string, s: string, m: string, p: string)
    requires Markers(s, m, p)
    ensures var c := ReplaceAll(b, s + m, p);
      ReplaceAll(c, p, s) == b ==> Rewritten(b, s + m) == 0 && Rewritten(c, p) == 0
  {
    var c := ReplaceAll(b, s + m, p);
    CountLead(s);
    CountLead(m);
    CountAbsent(p, s[0]);
    CountAbsent(s, p[0]);
    CountAbsent(m, p[0]);
    CountConcat(s, m, s[0]);
    CountConcat(s, m, p[0]);
    ReplaceAllCounts(b, s + m, p, s[0]);
    ReplaceAllCounts(b, s + m, p, p[0]);
    ReplaceAllCounts(c, p, s, s[0]);
    ReplaceAllCounts(c, p, s, p[0]);
  }

  lemma CountEnds(p: string, inner: string, z: char)
    requires p == [z] + inner + [z] && z !in inner
    ensures Count(p, z) == 2
  {
    CountConcat([z] + inner, [z], z);
    CountConcat([z], inner, z);
    CountAbsent(inner, z);
  }

  lemma CountLead(s: string)
    requires s != "" && s[0] !in s[1..]
    ensures Count(s, s[0]) == 1
  {
    CountAbsent(s[1..], s[0]);
  }

  lemma {:induction false} CountAbsent(s: string, c: char)
    requires c !in s
    ensures Count(s, c) == 0
  {
    if s != "" {
      CountAbsent(s[1..], c);
    }
  }

  /** Away from the placeholder's NUL, escaping is invisible to the strip: it
      removes exactly the markers the body brought along. */
  lemma StripIgnoresEscape(b: string)
    requires '\0' !in b
    ensures Strip(Escape(b)) == Strip(b)
  {
    if Index(b, SENTINEL) >= 0 {
      TheMarkers();
      MarkThenStrip(ReplaceAll(b, SENTINEL + MARKER, PLACEHOLDER), SENTINEL, MARKER, PLACEHOLDER);
      ThroughPlaceholder(b, SENTINEL + MARKER, PLACEHOLDER, SENTINEL);
    }
  }

  lemma {:induction false} ThroughPlaceholder(b: string, old_: string, p: string, new_: string)
    requires |old_| > 0 && |p| > 0 && p[0] !in b
    ensures ReplaceAll(ReplaceAll(b, old_, p), p, new_) == ReplaceAll(b, old_, new_)
  {
    if b == "" {
    } else if old_ <= b {
      ReplaceAllHit(ReplaceAll(b[|old_|..], old_, p), p, new_);
      ThroughPlaceholder(b[|old_|..], old_, p, new_);
    } else {
      assert b[0] in b;
      ReplaceAllPrefix([b[0]], ReplaceAll(b[1..], old_, p), p, new_);
      ThroughPlaceholder(b[1..], old_, p, new_);
    }
  }

  // ------------------------------------------------------------------ marking

  /** Every sentinel in `t` carries the marker. */
  ghost predicate AllMarked(t: string, s: string, m: string) {
    forall i: nat :: OccursAt(t, s, i) ==> OccursAt(t, m, i + |s|)
  }

  lemma MarkedTail(x: string, t: string, s: string, m: string)
    requires AllMarked(x + t, s, m)
    ensures AllMarked(t, s, m)
  {
    forall i: nat | OccursAt(t, s, i) ensures OccursAt(t, m, i + |s|) {
      OccursShift(x, t, s, i);
      OccursShift(x, t, m, i + |s|);
    }
  }

  /** A marked sentinel, or runes at which no sentinel begins, may be put in
      front of a text whose sentinels are all marked. */
  lemma MarkedFront(x: string, t: string, s: string, m: string, p: string)
    requires Markers(s, m, p) && AllMarked(t, s, m)
    requires x == s + m || s[0] !in x || (|x| == 1 && !(s <= x + t))
    ensures AllMarked(x + t, s, m)
  {
    hide Markers, OccursAt;
    var u := x + t;
    forall i: nat | OccursAt(u, s, i) ensures OccursAt(u, m, i + |s|) {
      if i >= |x| {
        OccursShift(x, t, s, i - |x|);
        OccursShift(x, t, m, i - |x| + |s|);
      } else {
        MarkedHere(x, t, s, m, p, i);
      }
    }
  }

  lemma MarkedHere(x: string, t: string, s: string, m: string, p: string, i: nat)
    requires Markers(s, m, p) && i < |x|
    requires x == s + m || s[0] !in x || (|x| == 1 && !(s <= x + t))
    ensures OccursAt(x + t, s, i) ==> OccursAt(x + t, m, i + |s|)
  {
    var u := x + t;
    if x == s + m {
      if i == 0 {
        assert u[|s|..|s| + |m|] == m;
      } else {
        InsideMarked(u, s, m, p, i, t);
      }
    } else {
      OccursAtFront(u, s);
      assert u[i] == x[i] && x[i] in x;
      assert i + |s| <= |u| ==> u[i..i + |s|][0] == u[i];
    }
  }

  lemma InsideMarked(u: string, s: string, m: string, p: string, i: nat, t: string)
    requires Markers(s, m, p) && u == s + m + t && 0 < i < |s + m|
    ensures !OccursAt(u, s, i)
  {
    if i < |s| {
      assert s[i] == s[1..][i - 1] && u[i] == s[i];
      assert i + |s| <= |u| ==> u[i..i + |s|][0] == u[i];
    } else if i == |s| {
      var k :| 0 <= k < |s| && k < |m| && s[k] != m[k];
      assert u[i + k] == m[k];
      assert i + |s| <= |u| ==> u[i..i + |s|][k] == u[i + k];
    } else {
      assert m[i - |s|] == m[1..][i - |s| - 1] && u[i] == m[i - |s|];
      assert i + |s| <= |u| ==> u[i..i + |s|][0] == u[i];
    }
  }

  lemma {:induction false} SecondPassMarks(c: string, s: string, m: string, p: string)
    requires Markers(s, m, p)
    ensures AllMarked(ReplaceAll(c, s, s + m), s, m)
  {
    if c == "" {
    } else if s <= c {
      SecondPassMarks(c[|s|..], s, m, p);
      MarkedFront(s + m, ReplaceAll(c[|s|..], s, s + m), s, m, p);
    } else {
      SecondPassMarks(c[1..], s, m, p);
      NoFalsePrefix(c[0], c[1..], s, s, s + m);
      assert [c[0]] + c[1..] == c;
      MarkedFront([c[0]], ReplaceAll(c[1..], s, s + m), s, m, p);
    }
  }

  lemma {:induction false} ThirdPassKeepsMarks(y: string, s: string, m: string, p: string)
    requires Markers(s, m, p) && AllMarked(y, s, m)
    ensures AllMarked(ReplaceAll(y, p, s + m), s, m)
  {
    var sm := s + m;
    if y == "" {
    } else if p <= y {
      var y' := y[|p|..];
      assert y == p + y';
      MarkedTail(p, y', s, m);
      ThirdPassKeepsMarks(y', s, m, p);
      MarkedFront(sm, ReplaceAll(y', p, sm), s, m, p);
    } else if s <= y {
      assert OccursAt(y, s, 0);
      assert OccursAt(y, m, |s|);
      var y' := y[|sm|..];
      assert y == sm + y';
      MarkedTail(sm, y', s, m);
      ThirdPassKeepsMarks(y', s, m, p);
      ReplaceAllPrefix(sm, y', p, sm);
      MarkedFront(sm, ReplaceAll(y', p, sm), s, m, p);
    } else {
      var y' := y[1..];
      assert y == [y[0]] + y';
      MarkedTail([y[0]], y', s, m);
      ThirdPassKeepsMarks(y', s, m, p);
      NoFalsePrefix(y[0], y', s, p, sm);
      MarkedFront([y[0]], ReplaceAll(y', p, sm), s, m, p);
    }
  }

  /** After escaping, whatever the body, every sentinel in it is marked. */
  lemma EscapeMarks(b: string)
    ensures AllMarked(Escape(b), SENTINEL, MARKER)
  {
    TheMarkers();
    if Index(b, SENTINEL) >= 0 {
      var c := ReplaceAll(b, SENTINEL + MARKER, PLACEHOLDER);
      SecondPassMarks(c, SENTINEL, MARKER, PLACEHOLDER);
      ThirdPassKeepsMarks(ReplaceAll(c, SENTINEL, SENTINEL + MARKER), SENTINEL, MARKER, PLACEHOLDER);
    }
  }

  // ------------------------------------------------------------- finding the cut

  /** The body ends at `i`: a sentinel that is not marked. */
  predicate RealAt(t: string, s: string, m: string, i: nat) {
    OccursAt(t, s, i) && !OccursAt(t, m, i + |s|)
  }

  /** The least real sentinel, or -1. */
  function FirstReal(t: string, s: string, m: string): (r: int)
    requires |s| > 0
    ensures -1 <= r
    ensures r >= 0 ==> RealAt(t, s, m, r)
    ensures forall j: nat :: r < 0 || j < r ==> !RealAt(t, s, m, j)
  {
    if RealAt(t, s, m, 0) then 0
    else if t == "" then -1
    else
      var k := FirstReal(t[1..], s, m);
      assert t == t[..1] + t[1..];
      RealShift(t[..1], t[1..], s, m);
      assert k >= 0 ==> RealAt(t, s, m, k + 1);
      assert forall j: nat :: j > 0 && RealAt(t, s, m, j) ==> RealAt(t[1..], s, m, j - 1);
      if k < 0 then -1 else k + 1
  }

  lemma RealShift(x: string, t: string, s: string, m: string)
    ensures forall j: nat :: RealAt(x + t, s, m, |x| + j) <==> RealAt(t, s, m, j)
    ensures forall j: nat :: j >= |x| ==> (RealAt(x + t, s, m, j) <==> RealAt(t, s, m, j - |x|))
  {
    forall j: nat ensures RealAt(x + t, s, m, |x| + j) <==> RealAt(t, s, m, j) {
      OccursShift(x, t, s, j);
      OccursShift(x, t, m, j + |s|);
    }
    forall j: nat | j >= |x| ensures RealAt(x + t, s, m, j) <==> RealAt(t, s, m, j - |x|) {
      OccursShift(x, t, s, j - |x|);
      OccursShift(x, t, m, j - |x| + |s|);
    }
  }

  lemma FirstRealIs(t: string, s: string, m: string, i: nat)
    requires |s| > 0 && RealAt(t, s, m, i) && forall j: nat :: j < i ==> !RealAt(t, s, m, j)
    ensures FirstReal(t, s, m) == i
  {
  }

  /** Behind a body whose sentinels are all marked and a newline, the cut is
      where the rest says it is. */
  lemma CutAfterMarked(e: string, tail: string, s: string, m: string, p: string)
    requires Markers(s, m, p) && AllMarked(e, s, m)
    requires tail == "" || tail[0] == '\n'
    ensures FirstReal(e + tail, s, m) == if FirstReal(tail, s, m) < 0 then -1 else |e| + FirstReal(tail, s, m)
  {
    NoneInMarked(e, tail, s, m, p);
    RealShift(e, tail, s, m);
    var r := FirstReal(e + tail, s, m);
    assert r >= 0 ==> RealAt(tail, s, m, r - |e|);
  }

  /** The scan of `Parse`, which jumps over each marked sentinel and its marker
      and searches again in what is left, stops exactly at the first real one. */
  method FindReal(rest: string, s: string, m: string, ghost p: string) returns (cut: int)
    requires Markers(s, m, p)
    ensures cut == FirstReal(rest, s, m)
  {
    assert |s| > 0;
    hide Markers, FirstReal, Index, NoneUpTo;
    NoneYet(rest, s, m);
    var head, offset := rest, 0;
    while true
      invariant 0 <= offset <= |rest| && head == rest[offset..]
      invariant NoneUpTo(rest, s, m, offset)
      decreases |head|
    {
      var i := Index(head, s);
      if i < 0 {
        ScanMiss(rest, s, m, offset, head);
        return -1;
      }
      var afterSentinel := i + |s|;
      if m <= head[afterSentinel..] {
        var next := afterSentinel + |m|;
        ScanMarked(rest, s, m, p, offset, head, i);
        offset := offset + next;
        head := head[next..];
        continue;
      }
      ScanReal(rest, s, m, offset, head, i);
      return offset + i;
    }
  }

  ghost predicate NoneUpTo(t: string, s: string, m: string, k: nat) {
    forall j: nat :: j < k ==> !RealAt(t, s, m, j)
  }

  lemma NoneYet(t: string, s: string, m: string)
    ensures NoneUpTo(t, s, m, 0)
  {
  }

  lemma ScanMiss(rest: string, s: string, m: string, offset: nat, head: string)
    requires |s| > 0 && offset <= |rest| && head == rest[offset..] && NoneUpTo(rest, s, m, offset)
    requires Index(head, s) < 0
    ensures FirstReal(rest, s, m) == -1
  {
    NoneBefore(rest, s, m, offset, head, Index(head, s));
  }

  lemma {:induction false} ScanMarked(rest: string, s: string, m: string, p: string, offset: nat, head: string, i: nat)
    requires Markers(s, m, p) && offset <= |rest| && head == rest[offset..] && NoneUpTo(rest, s, m, offset)
    requires i == Index(head, s) && m <= head[i + |s|..]
    ensures NoneUpTo(rest, s, m, offset + (i + |s| + |m|))
  {
    assert |s| > 0;
    hide Markers, Index;
    NoneBefore(rest, s, m, offset, head, i);
    OccursShift(rest[..offset], head, s, i);
    MarkerAt(rest, m, offset, head, i + |s|);
    NoneInside(rest, s, m, p, offset + i);
  }

  lemma ScanReal(rest: string, s: string, m: string, offset: nat, head: string, i: nat)
    requires |s| > 0 && offset <= |rest| && head == rest[offset..] && NoneUpTo(rest, s, m, offset)
    requires i == Index(head, s) && !(m <= head[i + |s|..])
    ensures FirstReal(rest, s, m) == offset + i
  {
    hide Index, FirstReal;
    NoneBefore(rest, s, m, offset, head, i);
    OccursShift(rest[..offset], head, s, i);
    MarkerAt(rest, m, offset, head, i + |s|);
    FirstRealIs(rest, s, m, offset + i);
  }

  lemma MarkerAt(rest: string, m: string, offset: nat, head: string, k: nat)
    requires offset <= |rest| && head == rest[offset..] && k <= |head|
    ensures rest == rest[..offset] + head
    ensures m <= head[k..] <==> OccursAt(rest, m, offset + k)
  {
    assert rest == rest[..offset + k] + head[k..];
    OccursShift(rest[..offset + k], head[k..], m, 0);
    OccursAtFront(head[k..], m);
  }

  lemma NoneBefore(rest: string, s: string, m: string, offset: nat, head: string, i: int)
    requires |s| > 0 && offset <= |rest| && head == rest[offset..] && i == Index(head, s)
    ensures rest == rest[..offset] + head
    ensures forall j: nat :: offset <= j && (i < 0 || j < offset + i) ==> !RealAt(rest, s, m, j)
  {
    assert rest == rest[..offset] + head;
    forall j: nat | offset <= j && (i < 0 || j < offset + i) ensures !RealAt(rest, s, m, j) {
      OccursShift(rest[..offset], head, s, j - offset);
    }
  }

  lemma NoneInside(t: string, s: string, m: string, p: string, i: nat)
    requires Markers(s, m, p) && OccursAt(t, s, i) && OccursAt(t, m, i + |s|)
    ensures forall j: nat :: i <= j < i + |s| + |m| ==> !RealAt(t, s, m, j)
  {
    var u, tail := t[i..], t[i + |s| + |m|..];
    assert t == t[..i] + u;
    assert u == s + m + tail;
    forall j: nat | i < j < i + |s| + |m| ensures !RealAt(t, s, m, j) {
      InsideMarked(u, s, m, p, j - i, tail);
      OccursShift(t[..i], u, s, j - i);
    }
  }

  lemma NoneInMarked(e: string, tail: string, s: string, m: string, p: string)
    requires Markers(s, m, p) && AllMarked(e, s, m)
    requires tail == "" || tail[0] == '\n'
    ensures forall j: nat :: j < |e| ==> !RealAt(e + tail, s, m, j)
  {
    forall j: nat | j < |e| ensures !RealAt(e + tail, s, m, j) {
      StaysInside(e, tail, s, j);
      Extends(e, tail, m, j + |s|);
    }
  }

  lemma Extends(e: string, tail: string, p: string, j: nat)
    ensures OccursAt(e, p, j) ==> OccursAt(e + tail, p, j)
  {
    assert j + |p| <= |e| ==> (e + tail)[j..j + |p|] == e[j..j + |p|];
  }

  lemma StaysInside(e: string, tail: string, p: string, j: nat)
    requires '\n' !in p && (tail == "" || tail[0] == '\n') && j < |e|
    ensures OccursAt(e + tail, p, j) ==> OccursAt(e, p, j)
  {
    var u := e + tail;
    if OccursAt(u, p, j) {
      assert tail != "" ==> u[|e|] == '\n';
      assert forall k :: 0 <= k < |p| ==> u[j + k] == u[j..j + |p|][k] && p[k] in p;
      assert j + |p| <= |e| ==> u[j..j + |p|] == e[j..j + |p|];
    }
  }

  // --------------------------------------------------- newlines around a body

  /** Escaping works inside the leading and trailing newlines of a body. */
  lemma EscapeInsideNewlines(pre: string, t: string, post: string)
    requires All(pre, IsNewline) && All(post, IsNewline)
    ensures Escape(pre + t + post) == pre + Escape(t) + post
    ensures forall p :: p != "" && '\n' !in p ==> (Contains(pre + t + post, p) <==> Contains(t, p))
  {
    TheMarkers();
    forall p | p != "" && '\n' !in p ensures Contains(pre + t + post, p) <==> Contains(t, p) {
      ContainsInside(pre, t, post, p);
    }
    ContainsInside(pre, t, post, SENTINEL);
    ContainsIndex(t, SENTINEL);
    ContainsIndex(pre + t + post, SENTINEL);
    RewriteInsideNewlines(pre, t, post, SENTINEL, MARKER, PLACEHOLDER);
  }

  lemma RewriteInsideNewlines(pre: string, t: string, post: string, s: string, m: string, p: string)
    requires Markers(s, m, p) && All(pre, IsNewline) && All(post, IsNewline)
    ensures Rewrite(pre + t + post, s, m, p) == pre + Rewrite(t, s, m, p) + post
  {
    var t1 := ReplaceAll(t, s + m, p);
    Surrounded(pre, t, post, s + m, p);
    Surrounded(pre, t1, post, s, s + m);
    Surrounded(pre, ReplaceAll(t1, s, s + m), post, p, s + m);
  }

  lemma Surrounded(pre: string, t: string, post: string, old_: string, new_: string)
    requires |old_| > 0 && '\n' !in old_ && All(pre, IsNewline) && All(post, IsNewline)
    ensures ReplaceAll(pre + t + post, old_, new_) == pre + ReplaceAll(t, old_, new_) + post
  {
    assert old_[0] in old_;
    ReplaceAllSuffix(pre + t, post, old_, new_);
    ReplaceAllPrefix(pre, t, old_, new_);
  }

  lemma ContainsInside(pre: string, t: string, post: string, p: string)
    requires |p| > 0 && '\n' !in p && All(pre, IsNewline) && All(post, IsNewline)
    ensures Contains(pre + t + post, p) <==> Contains(t, p)
  {
    Surrounded(pre, t, post, p, "");
    RewrittenZero(t, p);
    RewrittenZero(pre + t + post, p);
    Shrinks(t, p);
    Shrinks(pre + t + post, p);
  }

  lemma {:induction false} Shrinks(t: string, p: string)
    requires |p| > 0
    ensures |ReplaceAll(t, p, "")| <= |t|
    ensures |ReplaceAll(t, p, "")| == |t| <==> Rewritten(t, p) == 0
  {
    if t != "" {
      Shrinks(t[if p <= t then |p| else 1..], p);
    }
  }

  /** Escaping leaves no newline at an end where there was none. */
  lemma EscapeEnds(t: string)
    requires t != "" && t[0] != '\n' && t[|t| - 1] != '\n'
    ensures var e := Escape(t); e != "" && e[0] != '\n' && e[|e| - 1] != '\n'
  {
    hide Markers, Rewrite, Index;
    if Index(t, SENTINEL) >= 0 {
      TheMarkers();
      RewriteEnds(t, SENTINEL, MARKER, PLACEHOLDER);
    }
  }

  lemma RewriteEnds(t: string, s: string, m: string, p: string)
    requires Markers(s, m, p) && t != "" && t[0] != '\n' && t[|t| - 1] != '\n'
    ensures var e := Rewrite(t, s, m, p); e != "" && e[0] != '\n' && e[|e| - 1] != '\n'
  {
    var t1 := ReplaceAll(t, s + m, p);
    NoNewlineAtEnds(t, s + m, p);
    NoNewlineAtEnds(t1, s, s + m);
    NoNewlineAtEnds(ReplaceAll(t1, s, s + m), p, s + m);
  }

  lemma NoNewlineAtEnds(t: string, old_: string, new_: string)
    requires |old_| > 0 && new_ != "" && '\n' !in new_
    requires t != "" && t[0] != '\n' && t[|t| - 1] != '\n'
    ensures var e := ReplaceAll(t, old_, new_); e != "" && e[0] != '\n' && e[|e| - 1] != '\n'
  {
    assert new_[0] in new_ && new_[|new_| - 1] in new_;
    ReplaceAllFirst(t, old_, new_);
    ReplaceAllLast(t, old_, new_);
  }
}
