/** What `Parse` (internal/markdown/markdown.go) makes of any text, hand-edited ones
    included: where the frontmatter ends, what its lines set, which lines are pushes. */
module Reading {
  import opened Wrappers
  import opened Numerals
  import opened GoStrings
  import opened Sentinel
  import opened Records
  import opened Markdown
  import opened RoundTrip

  // -------------------------------------------------------- frontmatter lines

  lemma {:induction false} VisibleFromLeft(s: string, n: nat, f: char -> bool) returns (m: nat)
    requires n < |s| && !f(s[n])
    ensures m < |TrimLeft(s, f)| && !f(TrimLeft(s, f)[m])
  {
    if f(s[0]) {
      m := VisibleFromLeft(s[1..], n - 1, f);
    } else {
      m := n;
    }
  }

  lemma {:induction false} VisibleFromRight(s: string, n: nat, f: char -> bool)
    requires n < |s| && !f(s[n])
    ensures n < |TrimRight(s, f)|
  {
    if f(s[|s| - 1]) {
      VisibleFromRight(s[..|s| - 1], n, f);
    }
  }

  lemma VisibleStays(x: string, c: char, y: string)
    requires !IsSpace(c)
    ensures TrimSpace(x + [c] + y) != ""
  {
    var s := x + [c] + y;
    assert s[|x|] == c;
    hide IsSpace;
    var m := VisibleFromLeft(s, |x|, IsSpace);
    VisibleFromRight(TrimLeft(s, IsSpace), m, IsSpace);
  }

  /** Carriage returns at the end are blanks that trimming takes away anyway. */
  lemma TrimReturns(s: string)
    ensures TrimSpace(TrimRight(s, IsCarriageReturn)) == TrimSpace(s)
  {
    var once := TrimRight(s, IsCarriageReturn);
    var cr := TrimRightParts(s, IsCarriageReturn);
    var pre, post := TrimParts(once, IsSpace);
    TrimEnds(once, IsSpace);
    var core := Trim(once, IsSpace);
    hide Trim, TrimRight;
    assert s == pre + core + (post + cr);
    TrimIs(pre, core, post + cr, IsSpace);
  }

  /** A line with a colon that is not its first rune sets the field named by what
      stands before the colon to what stands behind it, both trimmed. */
  lemma LineSets(d: Doc, k: string, v: string)
    requires k != "" && ':' !in k
    ensures ReadLine(d, k + ":" + v) == SetField(d, TrimSpace(k), TrimSpace(v))
  {
    hide SetField, TrimSpace, TrimRight, Index;
    var v' := TrimRight(v, IsCarriageReturn);
    var x := k + ":";
    assert x[|x| - 1] == ':';
    TrimRightKeeps(x, v, IsCarriageReturn);
    var line := x + v';
    assert line == k + [':'] + v';
    VisibleStays(k, ':', v');
    IndexOfRune(k, ':', v');
    assert line[..|k|] == k && line[|k| + 1..] == v';
    TrimReturns(v);
  }

  /** What a line sets, field by field: a known key its own field, a time or a
      number only when it can be read, and any other key an entry of `extra`. */
  lemma LineSetsFields(d: Doc, k: string, v: string)
    requires k != "" && ':' !in k
    ensures var e, key, val := ReadLine(d, k + ":" + v), TrimSpace(k), TrimSpace(v);
      && e.title == (if key == "title" then val else d.title)
      && e.boardName == (if key == "board" then val else d.boardName)
      && e.authorName == (if key == "author" then val else d.authorName)
      && e.createdAt == (if key == "created_at" && ParseTime(val).Some? then ParseTime(val).value else d.createdAt)
      && e.updatedAt == (if key == "updated_at" && ParseTime(val).Some? then ParseTime(val).value else d.updatedAt)
      && e.scoreHint == (if key == "score" && ParseInt(val).Some? then ParseInt(val).value else d.scoreHint)
      && e.idHint == (if key == "id" && ParseInt(val).Some? then ParseInt(val).value else d.idHint)
      && e.pinned == (if key == "pinned" then val == "true" || val == "1" else d.pinned)
      && e.extra == (if IsKnown(key) then d.extra else d.extra[key := val])
      && e.body == d.body && e.pushes == d.pushes
  {
    hide *;
    LineSets(d, k, v);
    SetsTexts(d, TrimSpace(k), TrimSpace(v));
    SetsValues(d, TrimSpace(k), TrimSpace(v));
    SetsRest(d, TrimSpace(k), TrimSpace(v));
  }

  lemma SetsTexts(d: Doc, key: string, val: string)
    ensures var e := SetField(d, key, val);
      && e.title == (if key == "title" then val else d.title)
      && e.boardName == (if key == "board" then val else d.boardName)
      && e.authorName == (if key == "author" then val else d.authorName)
      && e.pinned == (if key == "pinned" then val == "true" || val == "1" else d.pinned)
  {
    hide ParseTime, ParseInt;
  }

  lemma SetsValues(d: Doc, key: string, val: string)
    ensures var e := SetField(d, key, val);
      && e.createdAt == (if key == "created_at" && ParseTime(val).Some? then ParseTime(val).value else d.createdAt)
      && e.updatedAt == (if key == "updated_at" && ParseTime(val).Some? then ParseTime(val).value else d.updatedAt)
      && e.scoreHint == (if key == "score" && ParseInt(val).Some? then ParseInt(val).value else d.scoreHint)
      && e.idHint == (if key == "id" && ParseInt(val).Some? then ParseInt(val).value else d.idHint)
  {
    hide ParseTime, ParseInt;
  }

  lemma SetsRest(d: Doc, key: string, val: string)
    ensures var e := SetField(d, key, val);
      e.extra == (if IsKnown(key) then d.extra else d.extra[key := val]) && e.body == d.body && e.pushes == d.pushes
  {
    hide ParseTime, ParseInt;
  }

  predicate IsKnown(key: string) {
    || key == "title" || key == "board" || key == "author" || key == "created_at" || key == "updated_at"
    || key == "score" || key == "id" || key == "pinned"
  }

  /** Any other line sets nothing: one without a colon, or with nothing before it. */
  lemma OtherLinesSetNothing(d: Doc, line: string)
    requires ':' !in line || line[0] == ':'
    ensures ReadLine(d, line) == d
  {
    hide SetField, TrimSpace;
    var l := TrimRight(line, IsCarriageReturn);
    if ':' !in line {
      assert forall c :: c in l ==> c in line;
      IndexAbsent(l, ":");
    } else {
      TrimRightKeeps(":", line[1..], IsCarriageReturn);
      assert line == ":" + line[1..];
      assert l == "" + [':'] + TrimRight(line[1..], IsCarriageReturn);
      IndexOfRune("", ':', TrimRight(line[1..], IsCarriageReturn));
    }
  }

  // ---------------------------------------------------- where the block is closed

  lemma {:induction false} SplitAtNewline(x: string, y: string)
    ensures Split(x + "\n" + y, '\n') == Split(x, '\n') + Split(y, '\n')
  {
    hide *;
    var t := x + "\n" + y;
    SplitOnce(t);
    if x == "" {
      assert t[1..] == y && t[0] == '\n';
      SplitNothing();
    } else {
      assert t[1..] == x[1..] + "\n" + y && t[0] == x[0];
      SplitAtNewline(x[1..], y);
      SplitOnce(x);
    }
  }

  lemma SplitNothing()
    ensures Split("", '\n') == [""]
  {
  }

  lemma SplitOnce(t: string)
    requires t != ""
    ensures var parts := Split(t[1..], '\n');
      Split(t, '\n') == if t[0] == '\n' then [""] + parts else [[t[0]] + parts[0]] + parts[1..]
  {
  }

  /** No line behind the first is `m`. */
  ghost predicate NoLine(ts: seq<string>, m: string) { forall i :: 0 < i < |ts| ==> ts[i] != m }

  lemma LineBetween(x: string, m: string, y: string)
    requires '\n' !in m
    ensures Split(x + "\n" + m + "\n" + y, '\n') == Split(x, '\n') + [m] + Split(y, '\n')
    ensures Split(x + "\n" + m, '\n') == Split(x, '\n') + [m]
    ensures !NoLine(Split(x + "\n" + m + "\n" + y, '\n'), m) && !NoLine(Split(x + "\n" + m, '\n'), m)
  {
    hide Split;
    assert x + "\n" + m + "\n" + y == x + "\n" + (m + "\n" + y);
    SplitAtNewline(x, m + "\n" + y);
    SplitAtNewline(m, y);
    SplitAtNewline(x, m);
    SplitFirst(m, "", '\n');
    assert (Split(x, '\n') + [m] + Split(y, '\n'))[|Split(x, '\n')|] == m;
    assert (Split(x, '\n') + [m])[|Split(x, '\n')|] == m;
  }

  function Delimiter(m: string): string { "\n" + m + "\n" }

  lemma CutAtDelimiter(t: string, m: string, j: nat)
    requires OccursAt(t, Delimiter(m), j)
    ensures t == t[..j] + "\n" + m + "\n" + t[j + |m| + 2..]
  {
    assert t == t[..j] + t[j..j + |m| + 2] + t[j + |m| + 2..];
    assert t[..j] + Delimiter(m) + t[j + |m| + 2..] == t[..j] + "\n" + m + "\n" + t[j + |m| + 2..];
  }

  lemma DelimiterIsLine(t: string, m: string, j: nat)
    requires '\n' !in m && OccursAt(t, Delimiter(m), j)
    ensures !NoLine(Split(t, '\n'), m)
  {
    CutAtDelimiter(t, m, j);
    hide Split, NoLine;
    LineBetween(t[..j], m, t[j + |m| + 2..]);
  }

  /** The lines of a block without the last newline, which is the delimiter's. */
  lemma Block(ts: seq<string>) returns (c: string)
    requires ts != [] && SingleLines(ts)
    ensures Unlines(ts) == c + "\n" && Split(c, '\n') == ts
  {
    LastLine(ts);
    var n := |ts| - 1;
    assert ts == ts[..n] + [ts[n]];
    UnlinesConcat(ts[..n], [ts[n]]);
    UnlinesOne(ts[n]);
    var u := Unlines(ts);
    assert u == Unlines(ts[..n]) + (ts[n] + "\n");
    c := u[..|u| - 1];
    assert u[|u| - 1] == '\n';
  }

  lemma CutsInside(c: string, m: string, rest: string, j: nat)
    requires j < |c| && OccursAt(c + "\n" + rest, Delimiter(m), j)
    ensures var t := c + "\n" + rest;
      c == c[..j] + "\n" + c[j + 1..] && t == c[..j] + "\n" + m + "\n" + t[j + |m| + 2..]
  {
    var t := c + "\n" + rest;
    CutAtDelimiter(t, m, j);
    assert t[j] == c[j] && t[j..j + |m| + 2][0] == '\n';
    assert t[..j] == c[..j];
  }

  /** A delimiter that begins inside the lines of `c` ends inside them. */
  lemma EarlyDelimiter(c: string, m: string, rest: string, j: nat)
    requires '\n' !in m && j < |c| && OccursAt(c + "\n" + rest, Delimiter(m), j)
    ensures !NoLine(Split(c, '\n'), m)
  {
    var t := c + "\n" + rest;
    var x, y, z := c[..j], c[j + 1..], t[j + |m| + 2..];
    CutsInside(c, m, rest, j);
    hide Split, OccursAt;
    SplitAtNewline(x, y);
    LineBetween(x, m, z);
    SplitAtNewline(c, rest);
    SameLine(Split(x, '\n'), Split(y, '\n'), Split(c, '\n'), m, Split(z, '\n'), Split(rest, '\n'));
  }

  lemma SameLine(x: seq<string>, y: seq<string>, c: seq<string>, m: string, z: seq<string>, r: seq<string>)
    requires c == x + y && c + r == x + [m] + z && x != [] && y != []
    ensures !NoLine(c, m)
  {
    assert (c + r)[|x|] == m && c[|x|] == (c + r)[|x|];
  }

  lemma FirstDelimiter(c: string, m: string, rest: string)
    requires '\n' !in m && NoLine(Split(c, '\n'), m)
    ensures Index(c + Delimiter(m) + rest, Delimiter(m)) == |c|
  {
    hide Split, NoLine;
    var t := c + Delimiter(m) + rest;
    assert t[|c|..|c| + |m| + 2] == Delimiter(m);
    assert t == c + "\n" + (m + "\n" + rest);
    forall j: nat | j < |c| ensures !OccursAt(t, Delimiter(m), j) {
      if OccursAt(t, Delimiter(m), j) {
        EarlyDelimiter(c, m, m + "\n" + rest, j);
      }
    }
    IndexIs(t, Delimiter(m), |c|);
  }

  lemma NoEarlierDelimiter(c: string, m: string)
    requires '\n' !in m && NoLine(Split(c, '\n'), m)
    ensures Index(c + "\n" + m, Delimiter(m)) < 0
  {
    hide Split, NoLine;
    var t := c + "\n" + m;
    var i := Index(t, Delimiter(m));
    assert i >= 0 ==> i + |m| + 2 <= |t|;
    if i >= 0 {
      EarlyDelimiter(c, m, m, i);
    }
  }

  /** Where the frontmatter ends, for every text.  It begins only at a first line
      `---`, and the first later line `---` but one closes it, be it followed by
      more text or the last of all; without such a line there is none, and then
      the first line is lost. */
  lemma FrontmatterOfLines(ts: seq<string>, tail: string)
    requires ts != [] && SingleLines(ts) && NoLine(ts, "---")
    ensures var (fm, rest) := SplitFrontmatter("---\n" + Unlines(ts) + "---\n" + tail);
      fm.Some? && Split(fm.value, '\n') == ts && rest == tail
    ensures var (fm, rest) := SplitFrontmatter("---\n" + Unlines(ts) + "---");
      fm.Some? && Split(fm.value, '\n') == ts && rest == ""
  {
    hide Split, Index, Unlines, NoLine, SplitFrontmatter;
    var c := Block(ts);
    FirstDelimiter(c, "---", tail);
    NoEarlierDelimiter(c, "---");
    SplitsClosed(c, tail);
  }

  lemma SplitsClosed(c: string, tail: string)
    requires Index(c + Delimiter("---") + tail, Delimiter("---")) == |c|
    requires Index(c + "\n" + "---", Delimiter("---")) < 0
    ensures SplitFrontmatter("---\n" + (c + "\n") + "---\n" + tail) == (Some(c), tail)
    ensures SplitFrontmatter("---\n" + (c + "\n") + "---") == (Some(c), "")
  {
    hide Index;
    BlockShape(c, tail);
    assert Delimiter("---") == "\n---\n" && "\n" + "---" == "\n---";
    assert c + "\n" + "---" == c + "\n---";
  }

  lemma BlockShape(c: string, tail: string)
    ensures var md, rest := "---\n" + (c + "\n") + "---\n" + tail, c + "\n---\n" + tail;
      "---\n" <= md && md[4..] == rest && rest[..|c|] == c && rest[|c| + 5..] == tail
    ensures var md, rest := "---\n" + (c + "\n") + "---", c + "\n---";
      "---\n" <= md && md[4..] == rest && |rest| >= 4 && rest[|rest| - 4..] == "\n---" && rest[..|rest| - 4] == c
  {
  }

  lemma NoFrontmatter(md: string)
    ensures !("---\n" <= md) ==> SplitFrontmatter(md) == (None, md)
    ensures "---\n" <= md && NoLine(Split(md[4..], '\n'), "---") ==> SplitFrontmatter(md) == (None, md[4..])
  {
    hide Split, NoLine;
    if "---\n" <= md {
      NotClosed(md[4..]);
    }
  }

  lemma NotClosed(rest: string)
    ensures Index(rest, "\n---\n") >= 0 ==> !NoLine(Split(rest, '\n'), "---")
    ensures |rest| >= 4 && rest[|rest| - 4..] == "\n---" ==> !NoLine(Split(rest, '\n'), "---")
  {
    assert Delimiter("---") == "\n---\n" && "\n" + "---" == "\n---";
    hide Split, NoLine, Index;
    FoundIsLine(rest, "---");
    EndsWithLine(rest, "---");
  }

  lemma FoundIsLine(t: string, m: string)
    requires '\n' !in m
    ensures Index(t, Delimiter(m)) >= 0 ==> !NoLine(Split(t, '\n'), m)
  {
    hide Split, NoLine, Delimiter;
    if Index(t, Delimiter(m)) >= 0 {
      DelimiterIsLine(t, m, Index(t, Delimiter(m)));
    }
  }

  lemma EndsWithLine(t: string, m: string)
    requires '\n' !in m
    ensures |t| > |m| && t[|t| - |m| - 1..] == "\n" + m ==> !NoLine(Split(t, '\n'), m)
  {
    if |t| > |m| && t[|t| - |m| - 1..] == "\n" + m {
      var x := t[..|t| - |m| - 1];
      assert t == x + "\n" + m;
      hide Split, NoLine;
      LineBetween(x, m, "");
    }
  }

  // ----------------------------------------------------------- the whole text

  lemma RealIsSentinel(t: string, s: string, m: string)
    requires |s| > 0
    ensures FirstReal(t, s, m) >= 0 ==> Contains(t, s)
  {
    var r := FirstReal(t, s, m);
    assert r >= 0 ==> OccursAt(t, s, r);
  }

  lemma PartHasNoSentinel(x: string, t: string, y: string, p: string)
    requires !Contains(x + t + y, p)
    ensures !Contains(t, p)
  {
    if i: nat :| OccursAt(t, p, i) {
      assert (x + t + y)[|x| + i..|x| + i + |p|] == t[i..i + |p|];
      assert OccursAt(x + t + y, p, |x| + i);
    }
  }

  lemma PlainCut(rest: string, s: string, m: string)
    requires |s| > 0 && !Contains(rest, s)
    ensures CutRest(TrimLeft(rest, IsNewline), s, m) == (Trim(rest, IsNewline), None)
    ensures !Contains(Trim(rest, IsNewline), s)
  {
    var l := TrimLeft(rest, IsNewline);
    var pre := TrimLeftParts(rest, IsNewline);
    assert rest == pre + l + "";
    PartHasNoSentinel(pre, l, "", s);
    RealIsSentinel(l, s, m);
    var post := TrimRightParts(l, IsNewline);
    assert l == "" + TrimRight(l, IsNewline) + post;
    PartHasNoSentinel("", TrimRight(l, IsNewline), post, s);
    hide Contains, TrimLeft, TrimRight, FirstReal;
  }

  lemma NothingToStrip(b: string)
    requires !Contains(b, SENTINEL)
    ensures Strip(b) == b
  {
    ContainsFirstPart(b, SENTINEL, MARKER);
    RewrittenZero(b, SENTINEL + MARKER);
    hide Contains, ReplaceAll;
  }

  /** What follows the frontmatter is the body, without the newlines around it,
      when there is no sentinel in it. */
  lemma PlainRest(d: Doc, rest: string)
    requires !Contains(rest, SENTINEL)
    ensures ReadRest(d, TrimLeft(rest, IsNewline)) == d.(body := Trim(rest, IsNewline))
  {
    PlainCut(rest, SENTINEL, MARKER);
    NothingToStrip(Trim(rest, IsNewline));
    hide Contains, CutRest, Trim, TrimLeft, Strip;
  }

  /** A closed block and what follows it, read. */
  lemma ParseWithBlock(ts: seq<string>, tail: string)
    requires ts != [] && SingleLines(ts) && NoLine(ts, "---") && !Contains(tail, SENTINEL)
    ensures ParseDoc("---\n" + Unlines(ts) + "---\n" + tail)
         == ReadLines(EMPTY_DOC, ts).(body := Trim(tail, IsNewline))
    ensures ParseDoc("---\n" + Unlines(ts) + "---") == ReadLines(EMPTY_DOC, ts).(body := "")
  {
    hide SplitFrontmatter, ReadLines, ReadRest, TrimLeft, Trim, Unlines;
    FrontmatterOfLines(ts, tail);
    PlainRest(ReadLines(EMPTY_DOC, ts), tail);
    NoSentinelInNothing();
    PlainRest(ReadLines(EMPTY_DOC, ts), "");
  }

  lemma NoSentinelInNothing()
    ensures !Contains("", SENTINEL) && Trim("", IsNewline) == ""
  {
  }

  lemma RestIsShorter(md: string)
    requires "---\n" <= md
    ensures var rest := SplitFrontmatter(md).1; |rest| + 4 <= |md| && md[|md| - |rest|..] == rest
  {
    var rest := md[4..];
    var close := Index(rest, "\n---\n");
    if close >= 0 {
      assert rest[close + 5..] == md[4 + close + 5..];
    }
  }

  /** The comment above `Parse` says that the whole input becomes the body where no
      frontmatter is present.  Of a text without a sentinel it does, and sets no
      field, exactly when the text does not open with a line `---`; an opening
      line that nothing closes is lost. */
  lemma WholeTextIsBodyExactly(md: string)
    requires !Contains(md, SENTINEL)
    ensures ParseDoc(md) == EMPTY_DOC.(body := Trim(md, IsNewline)) <==> !("---\n" <= md)
  {
    hide Contains, ReadLines, SplitFrontmatter, ReadRest, Trim, TrimLeft, TrimRight, Split;
    if "---\n" <= md {
      RestIsShorter(md);
      var rest := SplitFrontmatter(md).1;
      assert md == md[..|md| - |rest|] + rest + "";
      PartHasNoSentinel(md[..|md| - |rest|], rest, "", SENTINEL);
      var d := if SplitFrontmatter(md).0.Some? then ReadLines(EMPTY_DOC, Split(SplitFrontmatter(md).0.value, '\n'))
               else EMPTY_DOC;
      PlainRest(d, rest);
      TrimsDiffer(md, rest);
    } else {
      NoFrontmatter(md);
      PlainRest(EMPTY_DOC, md);
    }
  }

  /** What is left of a text behind its first line is not the text, trimmed. */
  lemma TrimsDiffer(md: string, rest: string)
    requires "---\n" <= md && |rest| + 4 <= |md| && md[|md| - |rest|..] == rest
    ensures |Trim(rest, IsNewline)| < |Trim(md, IsNewline)|
  {
    assert md[0] == '-' && TrimLeft(md, IsNewline) == md;
    VisibleFromRight(md, 0, IsNewline);
    var r := Trim(rest, IsNewline);
    if r != "" {
      var pre, post := TrimParts(rest, IsNewline);
      TrimEnds(rest, IsNewline);
      hide Trim;
      var n := |pre| + |r| - 1;
      assert rest[n] == r[|r| - 1];
      assert md[|md| - |rest| + n] == rest[n];
      VisibleFromRight(md, |md| - |rest| + n, IsNewline);
      TrimOf(md);
    }
  }

  lemma TrimOf(md: string)
    ensures TrimLeft(md, IsNewline) == md ==> Trim(md, IsNewline) == TrimRight(md, IsNewline)
  {
  }

  /** With a sentinel: the first that is not marked, wherever it stands, ends the
      body, and the lines behind it are the push lines. */
  lemma SentinelCuts(d: Doc, t: string, i: nat)
    requires OccursAt(t, "<!-- sshbbs:pushes -->", i) && !OccursAt(t, "<!-- sshbbs:literal -->", i + 22)
    requires forall j: nat ::
      j < i && OccursAt(t, "<!-- sshbbs:pushes -->", j) ==> OccursAt(t, "<!-- sshbbs:literal -->", j + 22)
    ensures ReadRest(d, t) == d.(body := Strip(TrimRight(t[..i], IsNewline)),
                                 pushes := d.pushes + ReadPushLines(Split(t[i + 22..], '\n')))
  {
    hide OccursAt, FirstReal, Strip, TrimRight, ReadPushLines, Split;
    assert |SENTINEL| == 22;
    forall j: nat | j < i ensures !RealAt(t, SENTINEL, MARKER, j) {
    }
    FirstRealIs(t, SENTINEL, MARKER, i);
  }

  // -------------------------------------------------------------- push lines

  /** The glyph of each kind. */
  predicate IsGlyph(k: PushKind, g: string) {
    (k.Push? && g == "推") || (k.Boo? && g == "噓") || (k.Arrow? && g == "→")
  }

  /** A push line in parts: a dash, a glyph, an author in brackets, and the rest. */
  predicate IsPushLine(line: string, w: string, k: PushKind, g: string, b: string, a: string, tail: string) {
    && IsGlyph(k, g) && All(w, IsSpace) && b != "" && All(b, IsBlank) && a != "" && ']' !in a
    && line == "- " + w + g + b + "[" + a + "]" + tail
  }

  function TimeOf(stamp: string): Civil {
    match ParseTime(stamp) case Some(t) => t case None => ZERO_TIME
  }

  lemma GlyphIs(k: PushKind, g: string)
    ensures IsGlyph(k, g) <==> KindOfGlyph(g) == Some(k)
    ensures IsGlyph(k, g) ==> |g| == 1 && !IsSpace(g[0])
  {
  }

  lemma PushParts(g: string, b: string, a: string, tail: string)
    requires |g| == 1 && !IsSpace(g[0]) && b != "" && All(b, IsBlank) && a != "" && ']' !in a
    ensures var s, r := g + b + "[" + a + "]" + tail, "[" + a + "]" + tail;
      && IndexFunc(s, IsBlank) == 1 && s[..1] == g && TrimLeft(s[1..], IsBlank) == r
      && "[" <= r && Index(r, "]") == |a| + 1 && r[1..|a| + 1] == a && r[|a| + 2..] == tail
  {
    var s, r := g + b + "[" + a + "]" + tail, "[" + a + "]" + tail;
    assert s[0] == g[0] && s[1] == b[0];
    assert s[1..] == b + r;
    TrimLeftIs(b, r, IsBlank);
    assert r == ("[" + a) + [']'] + tail;
    IndexOfRune("[" + a, ']', tail);
  }

  lemma ReadsParts(k: PushKind, g: string, b: string, a: string, tail: string)
    requires IsGlyph(k, g) && b != "" && All(b, IsBlank) && a != "" && ']' !in a
    requires var s := g + b + "[" + a + "]" + tail; TrimSpace(s) == s
    ensures var stamped := SplitStamp(TrimLeft(tail, IsBlank));
      ReadPush(g + b + "[" + a + "]" + tail) == Some(ParsedPush(k, a, TimeOf(stamped.0), stamped.1))
  {
    GlyphIs(k, g);
    PushParts(g, b, a, tail);
    hide TrimSpace, TrimLeft, SplitStamp, ParseTime, KindOfGlyph, IndexFunc, Index, IsGlyph;
  }

  /** A line of that shape, once trimmed, is one push: its time and body are what
      `SplitStamp` makes of the rest. */
  lemma PushLineReads(raw: string, w: string, k: PushKind, g: string, b: string, a: string, tail: string)
    requires IsPushLine(TrimSpace(raw), w, k, g, b, a, tail)
    ensures var stamped := SplitStamp(TrimLeft(tail, IsBlank));
      ReadPushLine(raw) == [ParsedPush(k, a, TimeOf(stamped.0), stamped.1)]
  {
    hide TrimSpace, TrimLeft, TrimRight, SplitStamp, TimeOf, IsGlyph, ReadPush;
    TrimReturns(raw);
    LineEndsVisibly(raw);
    GlyphIs(k, g);
    var s := g + b + "[" + a + "]" + tail;
    BehindDash(TrimSpace(raw), w, s, g, b, a, tail);
    TrimSpaceOfKey(s);
    TrimIs(w, s, "", IsSpace);
    TrimSpaceIs(w + s + "");
    ReadPushTrims(w + s);
    assert w + s + "" == w + s;
    ReadsParts(k, g, b, a, tail);
  }

  lemma BehindDash(line: string, w: string, s: string, g: string, b: string, a: string, tail: string)
    requires line == "- " + w + g + b + "[" + a + "]" + tail && s == g + b + "[" + a + "]" + tail
    requires |g| == 1 && !IsSpace(g[0]) && !IsSpace(line[|line| - 1])
    ensures "- " <= line && line[2..] == w + s && s != "" && !IsSpace(s[0]) && !IsSpace(s[|s| - 1])
  {
    assert line == "- " + (w + s);
    assert s[0] == g[0] && s[|s| - 1] == line[|line| - 1];
  }

  lemma TrimSpaceIs(s: string)
    ensures TrimSpace(s) == Trim(s, IsSpace)
  {
  }

  lemma LineEndsVisibly(raw: string)
    ensures var line := TrimSpace(raw); line != "" ==> !IsSpace(line[0]) && !IsSpace(line[|line| - 1])
  {
    TrimEnds(raw, IsSpace);
  }

  lemma PartsOfText(s: string) returns (k: PushKind, g: string, b: string, a: string, tail: string)
    requires ReadPush(s).Some? && TrimSpace(s) == s
    ensures IsGlyph(k, g) && b != "" && All(b, IsBlank) && a != "" && ']' !in a
    ensures s == g + b + ("[" + a + "]" + tail)
  {
    hide TrimSpace, SplitStamp, ParseTime, KindOfGlyph, IsGlyph;
    var ws := IndexFunc(s, IsBlank);
    g := s[..ws];
    b := TrimLeftParts(s[ws..], IsBlank);
    var rest := TrimLeft(s[ws..], IsBlank);
    k := KindOfGlyph(g).value;
    GlyphIs(k, g);
    BlankRun(s, ws, b, rest);
    var close := Index(rest, "]");
    BeforeBracket(rest);
    a, tail := rest[1..close], rest[close + 1..];
    hide Index, IndexFunc, TrimLeft, ReadPush;
    BracketShape(rest, close);
    assert s == s[..ws] + s[ws..];
  }

  lemma BracketShape(rest: string, close: nat)
    requires "[" <= rest && 1 < close && OccursAt(rest, "]", close)
    ensures rest == "[" + rest[1..close] + "]" + rest[close + 1..]
  {
    assert rest == rest[..1] + rest[1..close] + rest[close..close + 1] + rest[close + 1..];
  }

  lemma ReadPushTrims(s: string)
    ensures ReadPush(TrimSpace(s)) == ReadPush(s)
  {
    TrimsOnce(s);
    hide TrimSpace, IndexFunc, KindOfGlyph, Index, TrimLeft, SplitStamp, ParseTime;
  }

  lemma EmptyTrims()
    ensures TrimSpace("") == ""
  {
  }

  /** The parts of a line that is read as a push. */
  lemma PartsOfPush(raw: string) returns (w: string, k: PushKind, g: string, b: string, a: string, tail: string)
    requires ReadPushLine(raw) != []
    ensures IsPushLine(TrimSpace(raw), w, k, g, b, a, tail)
  {
    hide TrimSpace, TrimRight, ReadPush, IsGlyph;
    TrimReturns(raw);
    LineEndsVisibly(raw);
    var line := TrimSpace(raw);
    var s := TrimSpace(line[2..]);
    ReadPushTrims(line[2..]);
    TrimsOnce(line[2..]);
    w := TrimLeftOnly(line);
    k, g, b, a, tail := PartsOfText(s);
    hide ReadPushLine;
    ShapeOf(line, w, g, b, "[" + a + "]" + tail, a, tail);
  }

  lemma TrimsOnce(s: string)
    ensures TrimSpace(TrimSpace(s)) == TrimSpace(s)
  {
    LineEndsVisibly(s);
    EmptyTrims();
    if TrimSpace(s) != "" {
      TrimSpaceOfKey(TrimSpace(s));
    }
  }

  /** Behind the dash of a trimmed line there is nothing to trim at the end. */
  lemma TrimLeftOnly(line: string) returns (w: string)
    requires |line| > 2 && "- " <= line && !IsSpace(line[|line| - 1])
    ensures All(w, IsSpace) && line == "- " + (w + TrimSpace(line[2..]) + "")
  {
    var t := line[2..];
    w := TrimLeftParts(t, IsSpace);
    var l := TrimLeft(t, IsSpace);
    var m := VisibleFromLeft(t, |t| - 1, IsSpace);
    assert l[|l| - 1] == t[|t| - 1];
    assert TrimRight(l, IsSpace) == l;
    assert line == "- " + t;
  }

  lemma BlankRun(s: string, ws: int, b: string, rest: string)
    requires 0 <= ws < |s| && IsBlank(s[ws]) && s[ws..] == b + rest && (rest != "" ==> !IsBlank(rest[0]))
    ensures b != ""
  {
  }

  lemma ShapeOf(line: string, w: string, g: string, b: string, rest: string, a: string, tail: string)
    requires line == "- " + (w + (g + (b + rest)) + "") && rest == "[" + a + "]" + tail
    ensures line == "- " + w + g + b + "[" + a + "]" + tail
  {
  }

  /** Which lines are pushes: exactly those of that shape. */
  lemma PushLinesExactly(raw: string)
    ensures ReadPushLine(raw) != [] <==>
              exists w, k, g, b, a, tail :: IsPushLine(TrimSpace(raw), w, k, g, b, a, tail)
  {
    hide TrimSpace, ReadPushLine, IsPushLine;
    if ReadPushLine(raw) != [] {
      var w, k, g, b, a, tail := PartsOfPush(raw);
    }
    if w, k, g, b, a, tail :| IsPushLine(TrimSpace(raw), w, k, g, b, a, tail) {
      PushLineReads(raw, w, k, g, b, a, tail);
    }
  }

  /** A stamp alone, and a stamp and a body two spaces apart or more. */
  lemma StampTwoSpaces(stamp: string, body: string)
    requires stamp != "" && ' ' !in stamp && '\t' !in stamp
    ensures SplitStamp(stamp) == (stamp, "")
    ensures SplitStamp(stamp + ("  " + body)) == (stamp, TrimLeft(body, IsBlank))
  {
    StampSplits(stamp, body);
    hide SplitStamp, TrimLeft;
  }

  lemma StampHasNoBlank(x: string)
    requires ParseTime(x).Some?
    ensures ' ' !in x && '\t' !in x
  {
    hide ValidCivil, FromDigits;
    forall i | 0 <= i < |x| ensures !IsBlank(x[i]) {
      assert i < 4 ==> x[i] == x[0..4][i];
      assert 5 <= i < 7 ==> x[i] == x[5..7][i - 5];
      assert 8 <= i < 10 ==> x[i] == x[8..10][i - 8];
      assert 11 <= i < 13 ==> x[i] == x[11..13][i - 11];
      assert 14 <= i < 16 ==> x[i] == x[14..16][i - 14];
      assert 17 <= i < 19 ==> x[i] == x[17..19][i - 17];
    }
  }

  lemma SpacesAt(t: string, j: nat)
    ensures OccursAt(t, "  ", j) <==> j + 2 <= |t| && t[j] == ' ' && t[j + 1] == ' '
  {
    if j + 2 <= |t| {
      assert t[j..j + 2] == [t[j], t[j + 1]];
    }
  }

  lemma TwoSpacesAt(stamp: string, c: char, body: string, j: nat)
    requires ' ' !in stamp && body != "" && !IsBlank(body[0])
    ensures OccursAt(stamp + [c] + body, "  ", j) ==> j >= |stamp| + 1 && OccursAt(body, "  ", j - |stamp| - 1)
  {
    var t := stamp + [c] + body;
    assert t == (stamp + [c]) + body;
    if j < |stamp| {
      assert t[j] == stamp[j] && stamp[j] in stamp;
      SpacesAt(t, j);
    } else if j == |stamp| {
      assert t[j + 1] == body[0];
      SpacesAt(t, j);
    } else {
      OccursShift(stamp + [c], body, "  ", j - |stamp| - 1);
    }
  }

  lemma FirstBlank(stamp: string, c: char, body: string)
    requires ' ' !in stamp && '\t' !in stamp && IsBlank(c)
    ensures IndexFunc(stamp + [c] + body, IsBlank) == |stamp|
  {
    var t := stamp + [c] + body;
    forall j | 0 <= j < |stamp| ensures !IsBlank(t[j]) {
      assert t[j] == stamp[j] && stamp[j] in stamp;
    }
    assert t[|stamp|] == c;
  }

  lemma OneBlankStamp(stamp: string, c: char, body: string)
    requires ' ' !in stamp && '\t' !in stamp && IsBlank(c) && body != "" && !IsBlank(body[0])
    ensures var t := stamp + [c] + body;
      && IndexFunc(t, IsBlank) == |stamp| && t[..|stamp|] == stamp && t[|stamp|..] == [c] + body
      && TrimLeft([c] + body, IsBlank) == body
  {
    FirstBlank(stamp, c, body);
    TrimLeftIs([c], body, IsBlank);
    hide IndexFunc, TrimLeft;
  }

  /** A stamp and a body one blank apart, the body without two spaces in a row. */
  lemma StampOneBlank(stamp: string, c: char, body: string)
    requires ' ' !in stamp && '\t' !in stamp && IsBlank(c) && body != "" && !IsBlank(body[0])
    requires Index(body, "  ") < 0
    ensures SplitStamp(stamp + [c] + body) == (stamp, body)
  {
    hide IndexFunc, TrimLeft;
    var t := stamp + [c] + body;
    forall j: nat ensures !OccursAt(t, "  ", j) {
      TwoSpacesAt(stamp, c, body, j);
    }
    OneBlankStamp(stamp, c, body);
    hide Index, OccursAt;
  }

  lemma IndexBehind(x: string, y: string, p: string)
    requires Index(y, p) >= 0 && forall j: nat :: j < |x| ==> !OccursAt(x + y, p, j)
    ensures Index(x + y, p) == |x| + Index(y, p)
  {
    var i := Index(y, p);
    OccursShift(x, y, p, i);
    forall j: nat | j < |x| + i ensures !OccursAt(x + y, p, j) {
      if j >= |x| {
        OccursShift(x, y, p, j - |x|);
      }
    }
    IndexIs(x + y, p, |x| + i);
  }

  lemma FirstTwoSpaces(stamp: string, c: char, body: string)
    requires ' ' !in stamp && body != "" && !IsBlank(body[0]) && Index(body, "  ") >= 0
    ensures Index(stamp + [c] + body, "  ") == |stamp| + 1 + Index(body, "  ")
  {
    hide Index, OccursAt;
    forall j: nat | j < |stamp + [c]| ensures !OccursAt(stamp + [c] + body, "  ", j) {
      TwoSpacesAt(stamp, c, body, j);
    }
    IndexBehind(stamp + [c], body, "  ");
  }

  lemma SplitsAtSpaces(t: string, k: nat)
    requires Index(t, "  ") == k <= |t|
    ensures SplitStamp(t) == (t[..k], TrimLeft(t[k..], IsBlank))
  {
    hide Index, TrimLeft, IndexFunc;
  }

  /** With two spaces in its body, what stands before them is taken for the stamp,
      which gives no time, and only what stands behind them for the body. */
  lemma StampSwallowsBody(stamp: string, c: char, body: string)
    requires ' ' !in stamp && '\t' !in stamp && IsBlank(c) && body != "" && !IsBlank(body[0])
    requires Index(body, "  ") >= 0
    ensures var (s, b) := SplitStamp(stamp + [c] + body);
      TimeOf(s) == ZERO_TIME && |b| < |body| && body[|body| - |b|..] == b
  {
    hide *;
    var i := Index(body, "  ");
    var k := |stamp| + 1 + i;
    FirstTwoSpaces(stamp, c, body);
    BehindSpaces(body, i);
    SameTail(stamp, c, body, i);
    SplitsAtSpaces(stamp + [c] + body, k);
    NoTime((stamp + [c] + body)[..k], |stamp|);
  }

  lemma BehindSpaces(body: string, i: nat)
    requires Index(body, "  ") == i
    ensures i <= |body|
    ensures var b := TrimLeft(body[i..], IsBlank); |b| < |body| && body[|body| - |b|..] == b
  {
    BehindBlanks(body, i);
  }

  lemma SameTail(stamp: string, c: char, body: string, i: nat)
    requires i <= |body|
    ensures var t, k := stamp + [c] + body, |stamp| + 1 + i;
      t[k..] == body[i..] && |t[..k]| > |stamp| && t[..k][|stamp|] == c
  {
  }

  lemma NoTime(s: string, n: nat)
    requires n < |s| && IsBlank(s[n])
    ensures TimeOf(s) == ZERO_TIME
  {
    if ParseTime(s).Some? {
      StampHasNoBlank(s);
    }
    assert s[n] in s;
    hide ParseTime;
  }

  lemma BehindBlanks(body: string, i: nat)
    requires OccursAt(body, "  ", i)
    ensures var b := TrimLeft(body[i..], IsBlank); |b| < |body| && body[|body| - |b|..] == b
  {
    SpacesAt(body, i);
    var rest := body[i + 1..];
    assert body[i..][0] == ' ' && body[i..][1..] == rest;
    var pre := TrimLeftParts(rest, IsBlank);
    var b := TrimLeft(rest, IsBlank);
    assert TrimLeft(body[i..], IsBlank) == b;
    assert body == (body[..i + 1] + pre) + b;
  }

  /** A hand-written push with its stamp and body one blank apart comes back as
      written exactly when its body holds no two spaces in a row. */
  lemma OneBlankApart(k: PushKind, g: string, a: string, stamp: string, c: char, body: string)
    requires IsGlyph(k, g) && a != "" && ']' !in a
    requires stamp != "" && !IsSpace(stamp[0]) && ' ' !in stamp && '\t' !in stamp
    requires IsBlank(c) && body != "" && !IsBlank(body[0]) && !IsSpace(body[|body| - 1])
    ensures var p := ParsedPush(k, a, TimeOf(stamp), body);
      ReadPushLine("- " + g + " [" + a + "] " + stamp + [c] + body) == [p] <==> Index(body, "  ") < 0
  {
    hide SplitStamp, TrimSpace, Index, ReadPushLine, ParseTime, IsGlyph;
    var rest := stamp + [c] + body;
    assert rest[0] == stamp[0] && rest[|rest| - 1] == body[|body| - 1];
    WrittenPush(k, g, a, rest);
    LineShape(g, a, stamp, [c], body);
    if Index(body, "  ") < 0 {
      StampOneBlank(stamp, c, body);
    } else {
      StampSwallowsBody(stamp, c, body);
    }
  }

  lemma LineShape(g: string, a: string, x: string, y: string, z: string)
    ensures "- " + g + " [" + a + "] " + x + y + z == "- " + g + " [" + a + "] " + (x + y + z)
  {
  }

  /** A line as it is usually written, with anything behind the author. */
  lemma WrittenPush(k: PushKind, g: string, a: string, rest: string)
    requires IsGlyph(k, g) && a != "" && ']' !in a
    requires rest != "" && !IsSpace(rest[0]) && !IsSpace(rest[|rest| - 1])
    ensures var (stamp, body) := SplitStamp(rest);
      ReadPushLine("- " + g + " [" + a + "] " + rest) == [ParsedPush(k, a, TimeOf(stamp), body)]
  {
    hide SplitStamp, TrimSpace, ReadPushLine, ParseTime, IsGlyph;
    var raw := "- " + g + " [" + a + "] " + rest;
    assert raw[0] == '-' && raw[|raw| - 1] == rest[|rest| - 1];
    TrimSpaceOfKey(raw);
    assert raw == "- " + "" + g + " " + "[" + a + "]" + (" " + rest);
    TrimLeftIs(" ", rest, IsBlank);
    PushLineReads(raw, "", k, g, " ", a, " " + rest);
  }

}
