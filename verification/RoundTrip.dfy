/** `Parse` undoes `Format`: for every article and push list, what reading the
    written text gives back, and exactly when that is what was written.

    It goes part by part: the frontmatter and its values, the cut between body
    and pushes, the pushes, and then the whole document. */
module RoundTrip {
  import opened Wrappers
  import opened Numerals
  import opened GoStrings
  import opened Sentinel
  import opened Records
  import opened Markdown

  // -------------------------------------------------------------- frontmatter

  /** A frontmatter key: not blank at the ends, free of separators. */
  ghost predicate GoodKey(k: string) {
    && k != "" && !IsSpace(k[0]) && !IsSpace(k[|k| - 1]) && k[0] != '-'
    && ':' !in k && '\n' !in k
  }

  ghost predicate GoodLine(l: Line) {
    GoodKey(l.key) && '\n' !in l.val && '\r' !in l.val
  }

  ghost predicate GoodLines(ls: seq<Line>) {
    forall i :: 0 <= i < |ls| ==> GoodLine(ls[i])
  }

  /** What a run of lines means: later fields overwrite earlier ones. */
  function SetFields(d: Doc, ls: seq<Line>): Doc
    decreases ls
  {
    if ls == [] then d else SetFields(SetField(d, ls[0].key, TrimSpace(ls[0].val)), ls[1..])
  }

  lemma TrimSpaceOfKey(k: string)
    requires k != "" && !IsSpace(k[0]) && !IsSpace(k[|k| - 1])
    ensures TrimSpace(k) == k
  {
    TrimIs("", k, "", IsSpace);
    assert "" + k + "" == k;
  }

  lemma TrimSpaceAfterBlank(v: string)
    ensures TrimSpace(" " + v) == TrimSpace(v)
  {
    var pre, post := TrimParts(v, IsSpace);
    var core := Trim(v, IsSpace);
    TrimEnds(v, IsSpace);
    assert " " + v == (" " + pre) + core + post;
    TrimIs(" " + pre, core, post, IsSpace);
  }

  lemma StartsVisible(t: string)
    requires t != "" && !IsSpace(t[0])
    ensures TrimSpace(t) != ""
  {
    var post := TrimRightParts(t, IsSpace);
    assert TrimRight(t, IsSpace) == "" ==> t == post;
  }

  lemma LineReads(d: Doc, l: Line)
    requires GoodLine(l)
    ensures ReadLine(d, LineText(l)) == SetField(d, l.key, TrimSpace(l.val))
  {
    hide SetField;
    var t := LineText(l);
    assert t[|t| - 1] != '\r' by {
      if l.val != "" { assert t[|t| - 1] == l.val[|l.val| - 1]; }
    }
    assert TrimRight(t, IsCarriageReturn) == t by {
      TrimRightIs(t, "", IsCarriageReturn);
      assert t + "" == t;
    }
    StartsVisible(t);
    assert t == l.key + [':'] + (" " + l.val);
    IndexOfRune(l.key, ':', " " + l.val);
    assert t[..|l.key|] == l.key && t[|l.key| + 1..] == " " + l.val;
    TrimSpaceOfKey(l.key);
    TrimSpaceAfterBlank(l.val);
  }

  lemma {:induction false} LinesRead(d: Doc, ls: seq<Line>)
    requires GoodLines(ls)
    ensures ReadLines(d, LineTexts(ls)) == SetFields(d, ls)
    decreases ls
  {
    if ls != [] {
      LineReads(d, ls[0]);
      LinesRead(ReadLine(d, LineText(ls[0])), ls[1..]);
    }
  }

  lemma {:induction false} SetFieldsConcat(d: Doc, xs: seq<Line>, ys: seq<Line>)
    ensures SetFields(d, xs + ys) == SetFields(SetFields(d, xs), ys)
    decreases xs
  {
    hide SetField;
    if xs == [] {
      assert xs + ys == ys;
    } else {
      assert (xs + ys)[1..] == xs[1..] + ys;
      SetFieldsConcat(SetField(d, xs[0].key, TrimSpace(xs[0].val)), xs[1..], ys);
    }
  }

  /** Texts that can stand between the two `---` lines. */
  ghost predicate Plain(ts: seq<string>) {
    forall i :: 0 <= i < |ts| ==> '\n' !in ts[i] && ts[i] != "" && ts[i][0] != '-'
  }

  lemma {:induction false} LineTextsPlain(ls: seq<Line>)
    requires GoodLines(ls)
    ensures |LineTexts(ls)| == |ls| && Plain(LineTexts(ls))
  {
    if ls != [] {
      LineTextsPlain(ls[1..]);
      assert LineText(ls[0])[0] == ls[0].key[0];
    }
  }

  lemma {:induction false} IndexSkips(t: string, r: string, d: string)
    requires |d| > 0 && d[0] !in t && Index(r, d) >= 0
    ensures Index(t + r, d) == |t| + Index(r, d)
  {
    if t == "" {
      assert t + r == r;
    } else {
      assert (t + r)[1..] == t[1..] + r;
      IndexSkips(t[1..], r, d);
    }
  }

  /** The closing delimiter is not found inside the lines it closes. */
  lemma {:induction false} ClosedAtTheEnd(ts: seq<string>, rest: string, d: string)
    requires ts != [] && Plain(ts)
    requires |d| > 1 && d[0] == '\n' && d[1] == '-' && d <= "\n" + rest
    ensures Unlines(ts) != ""
    ensures Index(Unlines(ts) + rest, d) == |Unlines(ts)| - 1
  {
    var u := Unlines(ts[1..]);
    var r := "\n" + (u + rest);
    Regroup(ts[0], "\n", u, rest);
    assert ts[0] + "\n" + (u + rest) == ts[0] + r;
    assert Unlines(ts) + rest == ts[0] + r;
    if ts[1..] == [] {
      assert r == "\n" + rest;
      assert Index(r, d) == 0;
    } else {
      ClosedAtTheEnd(ts[1..], rest, d);
      assert r[1..] == u + rest && r[1] == ts[1][0];
      assert Index(r, d) == 1 + Index(u + rest, d);
    }
    IndexSkips(ts[0], r, d);
  }

  lemma {:induction false} FrontmatterReads(ls: seq<Line>, tail: string)
    requires ls != [] && GoodLines(ls)
    ensures var (fm, rest) := SplitFrontmatter("---\n" + Unlines(LineTexts(ls)) + "---\n" + tail);
      rest == tail && fm.Some? && ReadLines(EMPTY_DOC, Split(fm.value, '\n')) == SetFields(EMPTY_DOC, ls)
  {
    hide SetFields, ReadLines, LineTexts, Unlines, Split, SplitFrontmatter, Index, GoodLines;
    var ts := LineTexts(ls);
    LineTextsPlain(ls);
    var u := Unlines(ts);
    ClosedAtTheEnd(ts, "---\n" + tail, "\n---\n");
    SplitsThere(u, tail);
    LastLine(ts);
    LinesRead(EMPTY_DOC, ls);
  }

  lemma {:induction false} SplitsThere(u: string, tail: string)
    requires u != "" && Index(u + ("---\n" + tail), "\n---\n") == |u| - 1
    ensures SplitFrontmatter("---\n" + u + "---\n" + tail) == (Some(u[..|u| - 1]), tail)
  {
    hide Index, SplitFrontmatter;
    var rest := u + ("---\n" + tail);
    FrontShape("---\n", u, tail);
    SplitsAt("---\n" + u + "---\n" + tail, rest, |u| - 1);
  }

  lemma FrontShape(d: string, u: string, tail: string)
    ensures var md, rest := d + u + d + tail, u + (d + tail);
      d <= md && md[|d|..] == rest && |rest| >= |u| + |d| && rest[|u| + |d|..] == tail
      && (u != "" ==> rest[..|u| - 1] == u[..|u| - 1])
  {
  }

  lemma SplitsAt(md: string, rest: string, close: nat)
    requires "---\n" <= md && md[4..] == rest && Index(rest, "\n---\n") == close && close + 5 <= |rest|
    ensures SplitFrontmatter(md) == (Some(rest[..close]), rest[close + 5..])
  {
    hide Index;
  }

  lemma LastLine(ts: seq<string>)
    requires ts != [] && SingleLines(ts)
    ensures Unlines(ts) != "" && Split(Unlines(ts)[..|Unlines(ts)| - 1], '\n') == ts
  {
    hide Split;
    var n := |ts| - 1;
    var u := Unlines(ts[..n]);
    assert ts == ts[..n] + [ts[n]];
    UnlinesConcat(ts[..n], [ts[n]]);
    UnlinesOne(ts[n]);
    SplitUnlines(ts[..n], ts[n]);
    SplitFirst(ts[n], "", '\n');
    assert Unlines(ts) == u + (ts[n] + "\n");
    assert (u + (ts[n] + "\n"))[..|u| + |ts[n]|] == u + ts[n];
  }

  // ------------------------------------------------------------------- values

  /** Runes that number and timestamp texts are made of. */
  predicate IsStampRune(c: char) {
    IsDigit(c) || c == '-' || c == 'T' || c == ':' || c == 'Z'
  }

  lemma StampOfDigits(y: string, mo: string, d: string, h: string, mi: string, s: string)
    requires AllDigits(y) && AllDigits(mo) && AllDigits(d) && AllDigits(h) && AllDigits(mi) && AllDigits(s)
    ensures var x := Stamp(y, mo, d, h, mi, s); x != "" && forall i :: 0 <= i < |x| ==> IsStampRune(x[i])
  {
  }

  lemma IntRunes(n: int)
    ensures var x := FormatInt(n); x != "" && forall i :: 0 <= i < |x| ==> IsStampRune(x[i])
  {
  }

  /** Such a text is a single line that trimming leaves alone. */
  lemma StampText(x: string)
    requires x != "" && forall i :: 0 <= i < |x| ==> IsStampRune(x[i])
    ensures TrimSpace(x) == x && '\n' !in x && '\r' !in x && ' ' !in x && '\t' !in x
  {
    assert IsStampRune(x[0]) && IsStampRune(x[|x| - 1]);
    TrimSpaceOfKey(x);
  }

  lemma {:induction false} TimeText(t: Civil)
    ensures var x := FormatTime(t); TrimSpace(x) == x && '\n' !in x && '\r' !in x && ' ' !in x && '\t' !in x
  {
    StampOfDigits(Padded(t.year, 4), Padded(t.month, 2), Padded(t.day, 2),
                  Padded(t.hour, 2), Padded(t.minute, 2), Padded(t.second, 2));
    StampText(FormatTime(t));
  }

  lemma IntText(n: int)
    ensures var x := FormatInt(n); TrimSpace(x) == x && '\n' !in x && '\r' !in x
  {
    IntRunes(n);
    StampText(FormatInt(n));
  }

  lemma {:induction false} ReplaceRune(s: string, c: char)
    requires c != ' '
    ensures c !in ReplaceAll(s, [c], " ")
    ensures forall e :: e in ReplaceAll(s, [c], " ") ==> e == ' ' || e in s
    ensures c !in s ==> ReplaceAll(s, [c], " ") == s
  {
    if s != "" {
      assert [c] <= s <==> s[0] == c;
      ReplaceRune(s[1..], c);
      assert s == [s[0]] + s[1..];
    }
  }

  lemma SanitizeIsOneLine(s: string)
    ensures '\n' !in Sanitize(s) && '\r' !in Sanitize(s)
    ensures '\n' !in s && '\r' !in s ==> Sanitize(s) == s
  {
    ReplaceRune(s, '\r');
    ReplaceRune(ReplaceAll(s, "\r", " "), '\n');
  }

  /** A text that the frontmatter can carry unchanged. */
  predicate CleanText(s: string) {
    '\n' !in s && '\r' !in s && TrimSpace(s) == s
  }

  lemma CleanTextSurvives(s: string)
    ensures TrimSpace(Sanitize(s)) == s <==> CleanText(s)
  {
    SanitizeIsOneLine(s);
    var pre, post := TrimParts(Sanitize(s), IsSpace);
    assert forall c :: c in TrimSpace(Sanitize(s)) ==> c in Sanitize(s);
  }

  // ------------------------------------------------------- the fields read back

  /** A timestamp as it reads back. */
  function TimeBack(t: Civil): Civil { if ValidCivil(t) then t else ZERO_TIME }

  /** The frontmatter fields as they read back. */
  function FieldsBack(a: Article, opts: FormatOpts): Doc {
    EMPTY_DOC.(
      title := TrimSpace(Sanitize(a.title)),
      boardName := TrimSpace(Sanitize(opts.boardName)),
      authorName := TrimSpace(Sanitize(a.authorUserId)),
      createdAt := TimeBack(a.createdAt),
      updatedAt := TimeBack(OrZero(a.updatedAt)),
      scoreHint := a.recommendScore,
      idHint := if a.id > 0 then a.id else 0,
      pinned := a.pinnedAt.Some?)
  }

  lemma SetWhen(d: Doc, present: bool, key: string, val: string)
    requires GoodKey(key) && '\n' !in val && '\r' !in val
    ensures GoodLines(When(present, key, val))
    ensures SetFields(d, When(present, key, val)) == if present then SetField(d, key, TrimSpace(val)) else d
  {
    hide SetField, TrimSpace;
    var ls := When(present, key, val);
    assert present ==> SetFields(d, ls) == SetFields(SetField(d, key, TrimSpace(val)), ls[1..]);
  }

  lemma SetThen(d: Doc, xs: seq<Line>, ys: seq<Line>)
    requires GoodLines(xs) && GoodLines(ys)
    ensures GoodLines(xs + ys) && SetFields(d, xs + ys) == SetFields(SetFields(d, xs), ys)
  {
    SetFieldsConcat(d, xs, ys);
  }

  lemma NameKeys(d: Doc, v: string)
    ensures GoodKey("title") && SetField(d, "title", v) == d.(title := v)
    ensures GoodKey("board") && SetField(d, "board", v) == d.(boardName := v)
    ensures GoodKey("author") && SetField(d, "author", v) == d.(authorName := v)
  {
  }

  lemma TimeKeys(d: Doc, t: Civil)
    ensures GoodKey("created_at") && GoodKey("updated_at")
    ensures SetField(d, "created_at", FormatTime(t)) == if ValidCivil(t) then d.(createdAt := t) else d
    ensures SetField(d, "updated_at", FormatTime(t)) == if ValidCivil(t) then d.(updatedAt := t) else d
  {
    ParseTimeInvertsFormat(t);
    hide FormatTime, ParseTime, ValidCivil;
  }

  lemma ScoreKey(d: Doc, n: int)
    requires InInt64(n)
    ensures GoodKey("score") && SetField(d, "score", FormatInt(n)) == d.(scoreHint := n)
  {
    ParseIntInvertsFormat(n);
    hide FormatInt, ParseInt, TrimSpace, ParseTime;
  }

  lemma IdKey(d: Doc, n: int)
    requires InInt64(n)
    ensures GoodKey("id") && SetField(d, "id", FormatInt(n)) == d.(idHint := n)
  {
    ParseIntInvertsFormat(n);
    hide FormatInt, ParseInt, TrimSpace, ParseTime;
  }

  lemma PinnedKey(d: Doc)
    ensures GoodKey("pinned") && SetField(d, "pinned", "true") == d.(pinned := true) && TrimSpace("true") == "true"
  {
    TrimSpaceOfKey("true");
    hide TrimSpace, ParseInt, ParseTime;
  }

  lemma NamesRead(a: Article, opts: FormatOpts)
    ensures GoodLines(NamesOf(a, opts))
    ensures SetFields(EMPTY_DOC, NamesOf(a, opts))
         == EMPTY_DOC.(title := TrimSpace(Sanitize(a.title)),
                       boardName := TrimSpace(Sanitize(opts.boardName)),
                       authorName := TrimSpace(Sanitize(a.authorUserId)))
  {
    SanitizeIsOneLine(a.title);
    SanitizeIsOneLine(opts.boardName);
    SanitizeIsOneLine(a.authorUserId);
    EmptyStaysEmpty();
    hide Sanitize, TrimSpace, SetField, GoodKey, GoodLines;
    var d := EMPTY_DOC;
    var t, b := TrimSpace(Sanitize(a.title)), TrimSpace(Sanitize(opts.boardName));
    var u := TrimSpace(Sanitize(a.authorUserId));
    NameKeys(d, t);
    SetWhen(d, true, "title", Sanitize(a.title));
    var d1 := d.(title := t);
    NameKeys(d1, b);
    SetWhen(d1, opts.boardName != "", "board", Sanitize(opts.boardName));
    var d2 := d1.(boardName := b);
    NameKeys(d2, u);
    SetWhen(d2, a.authorUserId != "", "author", Sanitize(a.authorUserId));
    var ts, bs := When(true, "title", Sanitize(a.title)), When(opts.boardName != "", "board", Sanitize(opts.boardName));
    SetThen(d, ts, bs);
    SetThen(d, ts + bs, When(a.authorUserId != "", "author", Sanitize(a.authorUserId)));
  }

  lemma EmptyStaysEmpty()
    ensures TrimSpace(Sanitize("")) == ""
  {
  }

  lemma {:induction false} TimesRead(d: Doc, a: Article)
    requires d.createdAt == d.updatedAt == ZERO_TIME
    ensures GoodLines(TimesOf(a))
    ensures SetFields(d, TimesOf(a))
         == d.(createdAt := TimeBack(a.createdAt), updatedAt := TimeBack(OrZero(a.updatedAt)))
  {
    var c, u := a.createdAt, OrZero(a.updatedAt);
    TimeText(c);
    TimeText(u);
    hide FormatTime, ParseTime, TrimSpace, SetField, GoodKey, GoodLines, ValidCivil;
    TimeKeys(d, c);
    SetWhen(d, c != ZERO_TIME, "created_at", FormatTime(c));
    var d1 := d.(createdAt := TimeBack(c));
    TimeKeys(d1, u);
    SetWhen(d1, a.updatedAt.Some?, "updated_at", FormatTime(u));
    SetThen(d, When(c != ZERO_TIME, "created_at", FormatTime(c)), When(a.updatedAt.Some?, "updated_at", FormatTime(u)));
  }

  lemma {:induction false} FactsRead(d: Doc, a: Article)
    requires InInt64(a.recommendScore) && InInt64(a.id) && d.idHint == 0 && !d.pinned
    ensures GoodLines(FactsOf(a))
    ensures SetFields(d, FactsOf(a))
         == d.(scoreHint := a.recommendScore, idHint := if a.id > 0 then a.id else 0, pinned := a.pinnedAt.Some?)
  {
    var n, i := a.recommendScore, a.id;
    IntText(n);
    IntText(i);
    hide FormatInt, ParseInt, TrimSpace, SetField, GoodKey, GoodLines;
    ScoreKey(d, n);
    SetWhen(d, true, "score", FormatInt(n));
    var d1 := d.(scoreHint := n);
    IdKey(d1, i);
    SetWhen(d1, i > 0, "id", FormatInt(i));
    var d2 := d1.(idHint := if i > 0 then i else 0);
    PinnedKey(d2);
    SetWhen(d2, a.pinnedAt.Some?, "pinned", "true");
    var scoreLine, idLine := When(true, "score", FormatInt(n)), When(i > 0, "id", FormatInt(i));
    SetThen(d, scoreLine, idLine);
    SetThen(d, scoreLine + idLine, When(a.pinnedAt.Some?, "pinned", "true"));
  }

  lemma {:induction false} FieldsRead(a: Article, opts: FormatOpts)
    requires InInt64(a.recommendScore) && InInt64(a.id)
    ensures FrontmatterOf(a, opts) != [] && GoodLines(FrontmatterOf(a, opts))
    ensures SetFields(EMPTY_DOC, FrontmatterOf(a, opts)) == FieldsBack(a, opts)
  {
    NamesRead(a, opts);
    assert NamesOf(a, opts) != [];
    hide Sanitize, TrimSpace, NamesOf, TimesOf, FactsOf, GoodLines, SetFields, TimeBack, InInt64;
    var d := SetFields(EMPTY_DOC, NamesOf(a, opts));
    TimesRead(d, a);
    FactsRead(SetFields(d, TimesOf(a)), a);
    SetThen(EMPTY_DOC, NamesOf(a, opts), TimesOf(a));
    SetThen(EMPTY_DOC, NamesOf(a, opts) + TimesOf(a), FactsOf(a));
  }

  // --------------------------------------------------------------------- body

  /** The push block's text as the parser receives it. */
  function BlockBack(ps: seq<PushRow>, opts: FormatOpts): seq<ParsedPush> {
    if opts.includePushes && ps != [] then ReadPushLines(Split("\n" + Unlines(PushTexts(ps)), '\n')) else []
  }

  lemma NoneInNewlines(nl: string, y: string, s: string)
    requires |s| > 0 && s[0] != '\n' && All(nl, IsNewline)
    ensures forall j: nat :: j < |nl| ==> !OccursAt(nl + y, s, j)
  {
    forall j: nat | j < |nl| ensures !OccursAt(nl + y, s, j) {
      assert (nl + y)[j] == nl[j];
      assert j + |s| <= |nl + y| ==> (nl + y)[j..j + |s|][0] == (nl + y)[j];
    }
  }

  /** Behind a body stand newlines, and perhaps a sentinel that is not marked. */
  lemma {:induction false} CutBehind(nl: string, y: string, s: string, m: string, p: string)
    requires Markers(s, m, p) && All(nl, IsNewline) && y != "" && y[0] == '\n'
    ensures FirstReal(nl, s, m) == -1
    ensures FirstReal(nl + (s + y), s, m) == |nl|
  {
    assert s[0] in s && m[0] in m;
    hide FirstReal;
    NoneInNewlines(nl, "", s);
    assert nl + "" == nl;
    NoneInNewlines(nl, s + y, s);
    OccursShift(nl, s + y, s, 0);
    OccursShift(nl, s + y, m, |s|);
    OccursShift(s, y, m, 0);
    OccursAtFront(s + y, s);
    OccursAtFront(y, m);
    FirstRealIs(nl + (s + y), s, m, |nl|);
  }

  lemma RestCut(body: string, nl: string, s: string, m: string, y: string)
    requires |s| > 0 && All(nl, IsNewline) && (body != "" ==> body[|body| - 1] != '\n')
    requires FirstReal(body + (nl + (s + y)), s, m) == |body| + |nl|
    ensures CutRest(body + (nl + (s + y)), s, m) == (body, Some(y))
  {
    hide FirstReal;
    Slices(body, nl, s, y);
    TrimRightIs(body, nl, IsNewline);
  }

  lemma Slices(a: string, b: string, c: string, y: string)
    ensures var r := a + (b + (c + y)); r[..|a| + |b|] == a + b && r[|a| + |b| + |c|..] == y
  {
  }

  lemma RestWhole(body: string, nl: string, s: string, m: string)
    requires |s| > 0 && All(nl, IsNewline) && (body != "" ==> body[|body| - 1] != '\n')
    requires FirstReal(body + nl, s, m) == -1
    ensures CutRest(body + nl, s, m) == (body, None)
  {
    hide FirstReal;
    TrimRightIs(body, nl, IsNewline);
  }

  lemma {:induction false} EmptyBodyCut(nl: string, y: string, s: string, m: string, p: string)
    requires Markers(s, m, p) && All(nl, IsNewline) && y != "" && y[0] == '\n'
    ensures CutRest(TrimLeft(nl, IsNewline), s, m) == ("", None)
    ensures CutRest(TrimLeft(nl + ("\n" + (s + y)), IsNewline), s, m) == ("", Some(y))
  {
    assert |s| > 0 && s[0] in s && s[0] != '\n';
    CutBehind("", y, s, m, p);
    hide Markers, FirstReal, CutRest;
    TrimLeftIs(nl, "", IsNewline);
    assert nl + "" == nl && "" + "" == "";
    RestWhole("", "", s, m);
    var rest := s + y;
    assert nl + ("\n" + rest) == (nl + "\n") + rest;
    TrimLeftIs(nl + "\n", rest, IsNewline);
    assert "" + ("" + rest) == "" + rest == rest;
    RestCut("", "", s, m, y);
  }

  lemma {:induction false} TextCut(pre: string, e: string, post: string, y: string, s: string, m: string, p: string)
    requires Markers(s, m, p) && AllMarked(e, s, m) && y != "" && y[0] == '\n'
    requires All(pre, IsNewline) && All(post, IsNewline) && post != ""
    requires e != "" && e[0] != '\n' && e[|e| - 1] != '\n'
    ensures CutRest(TrimLeft(pre + (e + post), IsNewline), s, m) == (e, None)
    ensures CutRest(TrimLeft(pre + (e + (post + ("\n" + (s + y)))), IsNewline), s, m) == (e, Some(y))
  {
    assert |s| > 0;
    var nl, rest := post + "\n", s + y;
    assert post + ("\n" + rest) == nl + rest;
    assert post[0] == '\n' == (nl + rest)[0];
    CutBehind(post, y, s, m, p);
    CutBehind(nl, y, s, m, p);
    hide Markers, FirstReal, AllMarked, CutRest, All;
    CutAfterMarked(e, post, s, m, p);
    CutAfterMarked(e, nl + rest, s, m, p);
    TrimLeftIs(pre, e + post, IsNewline);
    TrimLeftIs(pre, e + (nl + rest), IsNewline);
    RestWhole(e, post, s, m);
    RestCut(e, nl, s, m, y);
  }

  /** A body as written, and what stands behind it, cut again. */
  lemma WrittenCut(pre: string, e: string, post: string, blk: string, y: string, s: string, m: string, p: string)
    requires Markers(s, m, p) && AllMarked(e, s, m) && All(pre, IsNewline) && All(post, IsNewline)
    requires e != "" ==> e[0] != '\n' && e[|e| - 1] != '\n'
    requires y != "" && y[0] == '\n' && (blk == "" || blk == "\n" + (s + y))
    ensures |s| > 0
    ensures CutRest(TrimLeft("\n" + BodyText(pre + e + post) + blk, IsNewline), s, m)
         == (e, if blk == "" then None else Some(y))
  {
    assert |s| > 0;
    hide CutRest, BodyText, TrimLeft, Markers, AllMarked;
    var post' := BodyLines(pre, e, post);
    var nl := "\n" + pre;
    Glue("\n", pre, e + post', blk);
    if e == "" {
      EmptyBodyCut(nl + post', y, s, m, p);
      assert e + post' == post' && nl + post' + "" == nl + post';
    } else {
      TextCut(nl, e, post', y, s, m, p);
      AppendInside(nl, e, post', blk);
    }
  }

  lemma BodyCut(b: string, blk: string, y: string)
    requires y != "" && y[0] == '\n' && (blk == "" || blk == "\n" + (SENTINEL + y))
    ensures CutRest(TrimLeft("\n" + BodyText(Escape(b)) + blk, IsNewline), SENTINEL, MARKER)
         == (Escape(Trim(b, IsNewline)), if blk == "" then None else Some(y))
  {
    hide CutRest, BodyText, TrimLeft, Trim, Markers, AllMarked, Escape;
    var t := Trim(b, IsNewline);
    var pre, post := TrimParts(b, IsNewline);
    TrimEnds(b, IsNewline);
    EscapeInsideNewlines(pre, t, post);
    EscapeNothing();
    EscapeMarks(t);
    if t != "" {
      EscapeEnds(t);
    }
    TheMarkers();
    WrittenCut(pre, Escape(t), post, blk, y, SENTINEL, MARKER, PLACEHOLDER);
  }

  lemma BodyRead(d: Doc, b: string, ps: seq<PushRow>, opts: FormatOpts)
    ensures ReadRest(d, TrimLeft("\n" + BodyText(Escape(b)) + PushBlock(ps, opts), IsNewline))
         == d.(body := Strip(Escape(Trim(b, IsNewline))), pushes := d.pushes + BlockBack(ps, opts))
  {
    hide CutRest, BodyText, TrimLeft, Trim, Escape, Strip, Unlines, PushTexts, ReadPushLines, Split;
    var u := Unlines(PushTexts(ps));
    var blk, y := PushBlock(ps, opts), "\n" + u;
    Regroup("\n", SENTINEL, "\n", u);
    Regroup("", "\n", SENTINEL, y);
    assert blk == "" || blk == "\n" + (SENTINEL + y);
    BodyCut(b, blk, y);
  }

  lemma Glue(a: string, b: string, c: string, y: string)
    ensures a + (b + c) + y == (a + b) + c + y
  {
  }

  lemma AppendInside(a: string, b: string, c: string, y: string)
    ensures a + (b + c) + y == a + (b + (c + y))
    ensures y == "" ==> a + (b + c) + y == a + (b + c)
  {
  }

  lemma BodyLines(pre: string, e: string, post: string) returns (post': string)
    requires All(pre, IsNewline) && All(post, IsNewline)
    ensures BodyText(pre + e + post) == pre + (e + post') && All(post', IsNewline) && All("\n" + pre, IsNewline)
    ensures e != "" && e[|e| - 1] != '\n' ==> post' != ""
  {
    var full := pre + e + post;
    assert post == "" ==> full == pre + e;
    if full != "" && full[|full| - 1] == '\n' {
      post' := post;
      assert full == pre + (e + post');
    } else {
      post' := post + "\n";
      assert full + "\n" == pre + (e + post');
    }
  }

  lemma EscapeNothing()
    ensures Escape("") == "" && Strip("") == ""
  {
  }

  /** The bodies that come back as they were written, but for newlines at the ends. */
  ghost predicate BodySurvives(b: string) {
    !Contains(b, SENTINEL) || (!Contains(b, SENTINEL + MARKER) && !Contains(b, PLACEHOLDER))
  }

  lemma BodySurvivesExactly(b: string)
    ensures Strip(Escape(Trim(b, IsNewline))) == Trim(b, IsNewline) <==> BodySurvives(b)
  {
    hide Strip, Escape, Contains;
    var t := Trim(b, IsNewline);
    var pre, post := TrimParts(b, IsNewline);
    EscapeInsideNewlines(pre, t, post);
    NoNewlines();
    assert '\n' !in SENTINEL + MARKER;
    StripUndoesEscape(t);
  }

  // ------------------------------------------------------------------- pushes

  /** An author name that a push line can carry. */
  ghost predicate GoodAuthor(s: string) { s != "" && ']' !in s && '\n' !in s }

  /** A push body as it reads back. */
  function PushBodyBack(b: string): string {
    TrimLeft(TrimRight(ReplaceAll(b, "\n", " "), IsSpace), IsBlank)
  }

  function PushBack(p: PushRow): ParsedPush {
    ParsedPush(p.kind, p.userUserId, TimeBack(p.createdAt), PushBodyBack(p.body))
  }

  lemma TrimRightTwice(s: string)
    ensures TrimRight(TrimRight(s, IsCarriageReturn), IsSpace) == TrimRight(s, IsSpace)
  {
    var once := TrimRight(s, IsCarriageReturn);
    var post := TrimRightParts(s, IsCarriageReturn);
    var more := TrimRightParts(once, IsSpace);
    assert s == TrimRight(once, IsSpace) + (more + post);
    assert All(more + post, IsSpace);
    TrimRightIs(TrimRight(once, IsSpace), more + post, IsSpace);
  }

  /** Trimming a line that begins and, before `y`, ends visibly. */
  lemma {:induction false} TrimLine(x: string, y: string)
    requires x != "" && !IsSpace(x[0]) && !IsSpace(x[|x| - 1])
    ensures TrimSpace(TrimRight(x + y, IsCarriageReturn)) == x + TrimRight(y, IsSpace)
  {
    var y' := TrimRight(y, IsCarriageReturn);
    TrimRightKeeps(x, y, IsCarriageReturn);
    assert (x + y')[0] == x[0];
    TrimRightKeeps(x, y', IsSpace);
    TrimRightTwice(y);
  }

  /** The body part of a push line, trimmed: nothing, or two spaces and the body. */
  lemma TrimBodyPart(b: string)
    ensures var q := TrimRight(b, IsSpace); TrimRight("  " + b, IsSpace) == if q == "" then "" else "  " + q
  {
    var q := TrimRight(b, IsSpace);
    var post := TrimRightParts(b, IsSpace);
    if q == "" {
      assert "  " + b == "" + ("  " + post);
      TrimRightIs("", "  " + post, IsSpace);
    } else {
      assert "  " + b == ("  " + q) + post;
      TrimRightIs("  " + q, post, IsSpace);
    }
  }

  lemma IndexAbsent(t: string, d: string)
    requires |d| > 0 && d[0] !in t
    ensures Index(t, d) == -1
  {
    forall j: nat ensures !OccursAt(t, d, j) {
      assert j + |d| <= |t| ==> t[j..j + |d|][0] == t[j] && t[j] in t;
    }
  }

  lemma NoBlanks(t: string)
    requires ' ' !in t && '\t' !in t
    ensures IndexFunc(t, IsBlank) == -1
  {
    assert forall i :: 0 <= i < |t| ==> t[i] in t;
  }

  lemma TrimTwoBlanks(q: string)
    ensures TrimLeft("  " + q, IsBlank) == TrimLeft(q, IsBlank)
  {
    var pre := TrimLeftParts(q, IsBlank);
    assert "  " + q == ("  " + pre) + TrimLeft(q, IsBlank);
    TrimLeftIs("  " + pre, TrimLeft(q, IsBlank), IsBlank);
  }

  lemma StampSplits(ts: string, q: string)
    requires ts != "" && ' ' !in ts && '\t' !in ts
    ensures SplitStamp(ts) == (ts, "")
    ensures SplitStamp(ts + ("  " + q)) == (ts, TrimLeft(q, IsBlank))
  {
    IndexAbsent(ts, "  ");
    NoBlanks(ts);
    var rest := "  " + q;
    assert Index(rest, "  ") == 0;
    IndexSkips(ts, rest, "  ");
    TrimTwoBlanks(q);
    hide Index, IndexFunc, TrimLeft;
    assert (ts + rest)[|ts|..] == rest && (ts + rest)[..|ts|] == ts;
  }

  /** The runes between the glyph and the end of a push line. */
  lemma PushFields(g: string, a: string, ts: string, z: string)
    requires |g| == 1 && !IsSpace(g[0]) && KindOfGlyph(g).Some? && a != "" && ']' !in a
    requires ts != "" && !IsSpace(ts[0])
    requires !IsSpace((ts + z)[|ts + z| - 1])
    ensures var stamped := SplitStamp(ts + z);
      ReadPush(g + " [" + a + "] " + (ts + z))
      == Some(ParsedPush(KindOfGlyph(g).value, a,
           match ParseTime(stamped.0) case Some(t) => t case None => ZERO_TIME, stamped.1))
  {
    hide SplitStamp, ParseTime, KindOfGlyph, TrimSpace, TrimLeft, Index, IndexFunc;
    var w := ts + z;
    var r := "[" + a + "] " + w;
    var s := g + " [" + a + "] " + w;
    GlyphEnds(g, a, w);
    TrimSpaceOfKey(s);
    TrimLeftIs(" ", r, IsBlank);
    BracketEnds(a, w);
    TrimLeftIs(" ", w, IsBlank);
  }

  lemma GlyphEnds(g: string, a: string, w: string)
    requires |g| == 1 && !IsSpace(g[0]) && w != "" && !IsSpace(w[|w| - 1])
    ensures var s := g + " [" + a + "] " + w;
      && IndexFunc(s, IsBlank) == 1 && s[..1] == g && s[1..] == " " + ("[" + a + "] " + w)
      && !IsSpace(s[0]) && !IsSpace(s[|s| - 1])
  {
    var s := g + " [" + a + "] " + w;
    assert s[0] == g[0] && s[1] == ' ' && s[|s| - 1] == w[|w| - 1];
  }

  lemma BracketEnds(a: string, w: string)
    requires ']' !in a
    ensures var r := "[" + a + "] " + w;
      Index(r, "]") == |a| + 1 && r[1..|a| + 1] == a && r[|a| + 2..] == " " + w && "[" <= r
  {
    var r := "[" + a + "] " + w;
    assert r == ("[" + a) + [']'] + (" " + w);
    IndexOfRune("[" + a, ']', " " + w);
  }

  lemma GlyphBack(k: PushKind)
    ensures |Glyph(k)| == 1 && !IsSpace(Glyph(k)[0])
    ensures !k.OtherKind? ==> KindOfGlyph(Glyph(k)) == Some(k)
  {
  }

  /** A push line trimmed, and what stands behind its dash. */
  lemma PushLineTrims(g: string, a: string, ts: string, b: string)
    requires ts != "" && !IsSpace(ts[|ts| - 1])
    ensures var q := TrimRight(b, IsSpace);
      var z := if q == "" then "" else "  " + q;
      var line := TrimSpace(TrimRight("- " + g + " [" + a + "] " + ts + "  " + b, IsCarriageReturn));
      "- " <= line && line[2..] == g + " [" + a + "] " + (ts + z) && !IsSpace((ts + z)[|ts + z| - 1])
  {
    hide TrimSpace, TrimRight;
    var q := TrimRight(b, IsSpace);
    var z := if q == "" then "" else "  " + q;
    var x := "- " + (g + " [" + a + "] " + ts);
    assert x[0] == '-' && x[|x| - 1] == ts[|ts| - 1];
    Dash(g, a, ts, "  " + b);
    Dash(g, a, ts, b);
    Dash(g, a, ts, z);
    TrimLine(x, "  " + b);
    TrimBodyPart(b);
    assert z != "" ==> (ts + z)[|ts + z| - 1] == q[|q| - 1];
    assert z == "" ==> ts + z == ts;
  }

  lemma Dash(g: string, a: string, ts: string, y: string)
    ensures var x := "- " + (g + " [" + a + "] " + ts);
      "- " + g + " [" + a + "] " + ts + y == x + y && "- " <= x + y && (x + y)[2..] == g + " [" + a + "] " + (ts + y)
    ensures "- " + g + " [" + a + "] " + ts + "  " + y == "- " + g + " [" + a + "] " + ts + ("  " + y)
  {
  }

  lemma {:induction false} PushReads(p: PushRow)
    requires !p.kind.OtherKind? && GoodAuthor(p.userUserId)
    ensures ReadPushLine(PushText(p)) == [PushBack(p)]
  {
    hide FormatTime, ParseTime, TrimSpace, TrimRight, TrimLeft, ReadPush, SplitStamp, ReplaceAll, Glyph, KindOfGlyph;
    var g, a, ts, b := Glyph(p.kind), p.userUserId, FormatTime(p.createdAt), ReplaceAll(p.body, "\n", " ");
    var q := TrimRight(b, IsSpace);
    var z := if q == "" then "" else "  " + q;
    GlyphBack(p.kind);
    TimeText(p.createdAt);
    TimeEnds(p.createdAt);
    PushLineTrims(g, a, ts, b);
    PushFields(g, a, ts, z);
    StampSplits(ts, q);
    assert z == "" ==> ts + z == ts;
    ParseTimeInvertsFormat(p.createdAt);
    TrimLeftNothing();
  }

  lemma TrimLeftNothing()
    ensures TrimLeft("", IsBlank) == ""
  {
  }

  lemma TimeEnds(t: Civil)
    ensures var ts := FormatTime(t); ts != "" && !IsSpace(ts[0]) && !IsSpace(ts[|ts| - 1])
  {
    StampOfDigits(Padded(t.year, 4), Padded(t.month, 2), Padded(t.day, 2),
                  Padded(t.hour, 2), Padded(t.minute, 2), Padded(t.second, 2));
    var ts := FormatTime(t);
    assert IsStampRune(ts[0]) && IsStampRune(ts[|ts| - 1]);
  }

  function PushesBack(ps: seq<PushRow>): seq<ParsedPush> {
    if ps == [] then [] else [PushBack(ps[0])] + PushesBack(ps[1..])
  }

  ghost predicate GoodPushes(ps: seq<PushRow>) {
    forall i :: 0 <= i < |ps| ==> !ps[i].kind.OtherKind? && GoodAuthor(ps[i].userUserId)
  }

  lemma {:induction false} ReadPushLinesConcat(xs: seq<string>, ys: seq<string>)
    ensures ReadPushLines(xs + ys) == ReadPushLines(xs) + ReadPushLines(ys)
  {
    hide ReadPushLine;
    if xs == [] {
      assert xs + ys == ys;
    } else {
      assert (xs + ys)[1..] == xs[1..] + ys;
      ReadPushLinesConcat(xs[1..], ys);
    }
  }

  lemma {:induction false} PushTextsRead(ps: seq<PushRow>)
    requires GoodPushes(ps)
    ensures SingleLines(PushTexts(ps)) && ReadPushLines(PushTexts(ps)) == PushesBack(ps)
  {
    hide PushText, ReadPushLine, PushBack;
    if ps != [] {
      PushTextsRead(ps[1..]);
      PushReads(ps[0]);
      PushIsOneLine(ps[0]);
    }
  }

  lemma {:induction false} PushIsOneLine(p: PushRow)
    requires GoodAuthor(p.userUserId)
    ensures '\n' !in PushText(p)
  {
    hide FormatTime, ReplaceAll;
    TimeText(p.createdAt);
    ReplaceRune(p.body, '\n');
  }

  lemma NothingRead()
    ensures ReadPushLine("") == [] && ReadPushLines([""]) == []
  {
    assert ReadPushLines([""]) == ReadPushLine("") + ReadPushLines([]);
  }

  lemma {:induction false} PushesRead(ps: seq<PushRow>, opts: FormatOpts)
    requires opts.includePushes ==> GoodPushes(ps)
    ensures BlockBack(ps, opts) == if opts.includePushes then PushesBack(ps) else []
  {
    hide ReadPushLines, ReadPushLine, PushTexts, Split, Unlines;
    if opts.includePushes && ps != [] {
      var ts := PushTexts(ps);
      PushTextsRead(ps);
      NothingRead();
      SplitFirst("", Unlines(ts), '\n');
      assert "" + ['\n'] + Unlines(ts) == "\n" + Unlines(ts);
      SplitUnlines(ts, "");
      assert Unlines(ts) + "" == Unlines(ts);
      SplitFirst("", "", '\n');
      ReadPushLinesConcat([""], ts + [""]);
      ReadPushLinesConcat(ts, [""]);
    }
  }

  // ------------------------------------------------ what a parsed push is like

  lemma TrimKeepsOut(s: string, c: char, f: char -> bool)
    requires c !in s
    ensures c !in TrimLeft(s, f) && c !in TrimRight(s, f) && c !in Trim(s, f)
  {
    var pre := TrimLeftParts(s, f);
    assert forall e :: e in TrimLeft(s, f) ==> e in s;
    assert forall e :: e in TrimRight(s, f) ==> e in s;
    assert forall e :: e in Trim(s, f) ==> e in TrimLeft(s, f);
  }

  lemma BeforeBracket(rest: string)
    requires Index(rest, "]") > 1 && "[" <= rest
    ensures ']' !in rest[1..Index(rest, "]")]
  {
    var close := Index(rest, "]");
    forall j | 1 <= j < close ensures rest[j] != ']' {
      assert !OccursAt(rest, "]", j);
      assert rest[j..j + 1] == [rest[j]];
    }
  }

  ghost predicate GoodParsed(p: ParsedPush) {
    !p.kind.OtherKind? && GoodAuthor(p.author) && ValidCivil(p.createdAt)
  }

  lemma ReadPushIsGood(raw: string)
    requires '\n' !in raw && ReadPush(raw).Some?
    ensures GoodParsed(ReadPush(raw).value)
  {
    hide SplitStamp, TrimSpace, TrimLeft, IndexFunc;
    var s := TrimSpace(raw);
    TrimSpaceKeepsOut(raw, '\n');
    var ws := IndexFunc(s, IsBlank);
    TrimKeepsOut(s[ws..], '\n', IsBlank);
    var rest := TrimLeft(s[ws..], IsBlank);
    BeforeBracket(rest);
    ParsedTimesAreValid();
  }

  lemma TrimSpaceKeepsOut(s: string, c: char)
    requires c !in s
    ensures c !in TrimSpace(s)
  {
    TrimKeepsOut(s, c, IsSpace);
  }

  lemma ParsedTimesAreValid()
    ensures ValidCivil(ZERO_TIME)
    ensures forall x :: ParseTime(x).Some? ==> ValidCivil(ParseTime(x).value)
  {
    hide AllDigits, FromDigits;
  }

  lemma ReadPushLineIsGood(raw: string)
    requires '\n' !in raw
    ensures forall i :: 0 <= i < |ReadPushLine(raw)| ==> GoodParsed(ReadPushLine(raw)[i])
  {
    hide TrimSpace, TrimRight, ReadPush, GoodParsed;
    TrimKeepsOut(raw, '\n', IsCarriageReturn);
    var line := TrimSpace(TrimRight(raw, IsCarriageReturn));
    TrimSpaceKeepsOut(TrimRight(raw, IsCarriageReturn), '\n');
    if "- " <= line && ReadPush(line[2..]).Some? {
      ReadPushIsGood(line[2..]);
    }
  }

  lemma {:induction false} ReadPushLinesAreGood(lines: seq<string>)
    requires SingleLines(lines)
    ensures forall i :: 0 <= i < |ReadPushLines(lines)| ==> GoodParsed(ReadPushLines(lines)[i])
  {
    hide ReadPushLine, GoodParsed;
    if lines != [] {
      ReadPushLineIsGood(lines[0]);
      ReadPushLinesAreGood(lines[1..]);
    }
  }

  lemma {:induction false} SplitIsSingleLines(s: string)
    ensures SingleLines(Split(s, '\n'))
  {
    if s != "" {
      SplitIsSingleLines(s[1..]);
    }
  }

  /** Whatever the text, a push that is read has one of the three kinds, an
      author that can be written, and a calendar timestamp. */
  lemma {:induction false} BlockBackIsGood(ps: seq<PushRow>, opts: FormatOpts)
    ensures forall i :: 0 <= i < |BlockBack(ps, opts)| ==> GoodParsed(BlockBack(ps, opts)[i])
  {
    hide Split, Unlines, PushTexts, ReadPushLines, GoodParsed;
    var block := "\n" + Unlines(PushTexts(ps));
    SplitIsSingleLines(block);
    ReadPushLinesAreGood(Split(block, '\n'));
  }

  // ---------------------------------------------------------------- round trip

  /** What reading a written article gives back, for every article, every push
      list and every option. */
  lemma {:induction false} ParseOfFormat(a: Article, ps: seq<PushRow>, opts: FormatOpts)
    requires InInt64(a.recommendScore) && InInt64(a.id)
    ensures ParseDoc(FormatDoc(a, ps, opts))
         == FieldsBack(a, opts).(body := Strip(Escape(Trim(a.body, IsNewline))), pushes := BlockBack(ps, opts))
  {
    hide InInt64, FrontmatterOf, FieldsBack, ReadRest, ReadLines, Split, SetFields, SplitFrontmatter,
         Strip, Escape, Trim, BlockBack, ParseDoc, FormatDoc, BodyText, PushBlock, GoodLines;
    FieldsRead(a, opts);
    DocReads(FrontmatterOf(a, opts), a, ps, opts);
    BodyRead(FieldsBack(a, opts), a.body, ps, opts);
    NoPushesYet(a, opts);
    assert [] + BlockBack(ps, opts) == BlockBack(ps, opts);
  }

  lemma NoPushesYet(a: Article, opts: FormatOpts)
    ensures FieldsBack(a, opts).pushes == []
  {
  }

  lemma {:induction false} DocReads(ls: seq<Line>, a: Article, ps: seq<PushRow>, opts: FormatOpts)
    requires ls == FrontmatterOf(a, opts) && ls != [] && GoodLines(ls)
    ensures ParseDoc(FormatDoc(a, ps, opts))
         == ReadRest(SetFields(EMPTY_DOC, ls),
                     TrimLeft("\n" + BodyText(Escape(a.body)) + PushBlock(ps, opts), IsNewline))
  {
    hide FrontmatterOf, ReadRest, ReadLines, Split, SetFields, SplitFrontmatter, Escape, BodyText, PushBlock, GoodLines,
         LineTexts, Unlines, TrimLeft;
    FrontmatterReads(ls, "\n" + BodyText(Escape(a.body)) + PushBlock(ps, opts));
    DocShape(Unlines(LineTexts(ls)), BodyText(Escape(a.body)), PushBlock(ps, opts));
  }

  lemma DocShape(u: string, b: string, blk: string)
    ensures "---\n" + u + "---\n\n" + b + blk == "---\n" + u + "---\n" + ("\n" + b + blk)
  {
  }

  /** The article as it was written. */
  function Written(a: Article, ps: seq<PushRow>, opts: FormatOpts): Doc {
    Doc(a.title, opts.boardName, a.authorUserId, a.createdAt, OrZero(a.updatedAt),
        a.recommendScore, if a.id > 0 then a.id else 0, a.pinnedAt.Some?,
        Trim(a.body, IsNewline), if opts.includePushes then PushesAsWritten(ps) else [], map[])
  }

  function PushesAsWritten(ps: seq<PushRow>): (r: seq<ParsedPush>)
    ensures |r| == |ps|
    ensures forall i :: 0 <= i < |ps| ==> r[i] == ParsedPush(ps[i].kind, ps[i].userUserId, ps[i].createdAt, ps[i].body)
  {
    if ps == [] then []
    else [ParsedPush(ps[0].kind, ps[0].userUserId, ps[0].createdAt, ps[0].body)] + PushesAsWritten(ps[1..])
  }

  /** A push that a push line carries unchanged. */
  ghost predicate PushSurvives(p: PushRow) {
    && !p.kind.OtherKind? && GoodAuthor(p.userUserId) && ValidCivil(p.createdAt)
    && '\n' !in p.body
    && (p.body != "" ==> !IsBlank(p.body[0]) && !IsSpace(p.body[|p.body| - 1]))
  }

  ghost predicate PushesSurvive(ps: seq<PushRow>) {
    forall i :: 0 <= i < |ps| ==> PushSurvives(ps[i])
  }

  lemma PushBodySurvives(b: string)
    ensures PushBodyBack(b) == b <==> '\n' !in b && (b != "" ==> !IsBlank(b[0]) && !IsSpace(b[|b| - 1]))
  {
    var flat := ReplaceAll(b, "\n", " ");
    ReplaceRune(b, '\n');
    if PushBodyBack(b) == b {
      TrimKeepsOut(flat, '\n', IsSpace);
      TrimKeepsOut(TrimRight(flat, IsSpace), '\n', IsBlank);
      LastStays(TrimRight(flat, IsSpace), IsBlank);
    }
    if '\n' !in b && (b != "" ==> !IsBlank(b[0]) && !IsSpace(b[|b| - 1])) {
      TrimRightIs(b, "", IsSpace);
      assert b + "" == b;
      TrimLeftIs("", b, IsBlank);
      assert "" + b == b;
    }
  }

  lemma LastStays(q: string, f: char -> bool)
    ensures var r := TrimLeft(q, f); r != "" ==> r[|r| - 1] == q[|q| - 1]
  {
    var pre := TrimLeftParts(q, f);
    var r := TrimLeft(q, f);
    assert r != "" ==> (pre + r)[|pre + r| - 1] == r[|r| - 1];
  }

  lemma PushSurvivesExactly(p: PushRow, q: ParsedPush)
    requires GoodParsed(q) && q == ParsedPush(p.kind, p.userUserId, p.createdAt, p.body)
    ensures q == PushBack(p) <==> PushSurvives(p)
  {
    hide PushBodyBack;
    PushBodySurvives(p.body);
  }

  lemma {:induction false} PushesBackAt(ps: seq<PushRow>)
    ensures |PushesBack(ps)| == |ps| && forall i :: 0 <= i < |ps| ==> PushesBack(ps)[i] == PushBack(ps[i])
  {
    hide PushBack;
    if ps != [] {
      PushesBackAt(ps[1..]);
    }
  }

  /** The push list comes back unchanged exactly when every push can be carried. */
  lemma {:induction false} PushesSurviveExactly(ps: seq<PushRow>, opts: FormatOpts)
    requires opts.includePushes
    ensures BlockBack(ps, opts) == PushesAsWritten(ps) <==> PushesSurvive(ps)
  {
    hide BlockBack, PushBack, GoodParsed, GoodAuthor, PushSurvives;
    PushesBackAt(ps);
    var r := PushesAsWritten(ps);
    if BlockBack(ps, opts) == r {
      BlockBackIsGood(ps, opts);
      forall i | 0 <= i < |ps| ensures !ps[i].kind.OtherKind? && GoodAuthor(ps[i].userUserId) {
        WrittenIsGood(ps[i], r[i]);
      }
      PushesRead(ps, opts);
      forall i | 0 <= i < |ps| ensures PushSurvives(ps[i]) {
        PushSurvivesExactly(ps[i], r[i]);
      }
    }
    if PushesSurvive(ps) {
      forall i | 0 <= i < |ps|
        ensures !ps[i].kind.OtherKind? && GoodAuthor(ps[i].userUserId) && r[i] == PushBack(ps[i])
      {
        SurvivorIsGood(ps[i], r[i]);
      }
      PushesRead(ps, opts);
    }
  }

  lemma WrittenIsGood(p: PushRow, q: ParsedPush)
    requires GoodParsed(q) && q.kind == p.kind && q.author == p.userUserId
    ensures !p.kind.OtherKind? && GoodAuthor(p.userUserId)
  {
  }

  lemma SurvivorIsGood(p: PushRow, q: ParsedPush)
    requires PushSurvives(p) && q == ParsedPush(p.kind, p.userUserId, p.createdAt, p.body)
    ensures !p.kind.OtherKind? && GoodAuthor(p.userUserId) && q == PushBack(p)
  {
    hide PushBodyBack;
    PushBodySurvives(p.body);
  }

  /** An article that the text form carries unchanged. */
  ghost predicate Survives(a: Article, ps: seq<PushRow>, opts: FormatOpts) {
    && CleanText(a.title) && CleanText(opts.boardName) && CleanText(a.authorUserId)
    && ValidCivil(a.createdAt) && ValidCivil(OrZero(a.updatedAt))
    && BodySurvives(a.body)
    && (opts.includePushes ==> PushesSurvive(ps))
  }

  /** The round trip: an article comes back as it was written, with only the
      newlines around its body gone, exactly when each of its parts can be
      carried. */
  lemma {:induction false} FormatThenParse(a: Article, ps: seq<PushRow>, opts: FormatOpts)
    requires InInt64(a.recommendScore) && InInt64(a.id)
    ensures ParseDoc(FormatDoc(a, ps, opts)) == Written(a, ps, opts) <==> Survives(a, ps, opts)
  {
    hide ParseDoc, FormatDoc, Strip, Escape, Trim, BlockBack, CleanText, ValidCivil, BodySurvives, PushesSurvive,
         TrimSpace, Sanitize, PushesAsWritten, InInt64;
    ParseOfFormat(a, ps, opts);
    CleanTextSurvives(a.title);
    CleanTextSurvives(opts.boardName);
    CleanTextSurvives(a.authorUserId);
    TimeSurvives(a.createdAt);
    TimeSurvives(OrZero(a.updatedAt));
    BodySurvivesExactly(a.body);
    if opts.includePushes {
      PushesSurviveExactly(ps, opts);
    } else {
      NoBlock(ps, opts);
    }
  }

  lemma TimeSurvives(t: Civil)
    ensures TimeBack(t) == t <==> ValidCivil(t)
  {
  }

  lemma NoBlock(ps: seq<PushRow>, opts: FormatOpts)
    requires !opts.includePushes
    ensures BlockBack(ps, opts) == []
  {
  }
}
