/** The text form of an article: `Format` writes it, `Parse` reads it back
    (internal/markdown/markdown.go). */
module Markdown {
  import opened Wrappers
  import opened Numerals
  import opened GoStrings
  import opened Sentinel
  import opened Records

  datatype FormatOpts = FormatOpts(includePushes: bool, boardName: string)

  datatype ParsedPush = ParsedPush(kind: PushKind, author: string, createdAt: Civil, body: string)

  /** The contents of a `Parsed`. */
  datatype Doc = Doc(
    title: string, boardName: string, authorName: string, createdAt: Civil, updatedAt: Civil,
    scoreHint: int, idHint: int, pinned: bool, body: string, pushes: seq<ParsedPush>,
    extra: map<string, string>)

  const EMPTY_DOC := Doc("", "", "", ZERO_TIME, ZERO_TIME, 0, 0, false, "", [], map[])

  // ------------------------------------------------------------------ writing

  datatype Line = Line(key: string, val: string)

  /** `sanitizeFM` */
  function Sanitize(s: string): string {
    ReplaceAll(ReplaceAll(s, "\r", " "), "\n", " ")
  }

  function Glyph(k: PushKind): string {
    match k
    case Push => "推"
    case Boo => "噓"
    case Arrow => "→"
    case OtherKind(_) => "?"
  }

  function OrZero(t: Option<Civil>): Civil { if t.Some? then t.value else ZERO_TIME }

  function When(present: bool, key: string, val: string): seq<Line> {
    if present then [Line(key, val)] else []
  }

  /** The frontmatter of an article, in order. */
  function FrontmatterOf(a: Article, opts: FormatOpts): seq<Line> {
    NamesOf(a, opts) + TimesOf(a) + FactsOf(a)
  }

  function NamesOf(a: Article, opts: FormatOpts): seq<Line> {
    [Line("title", Sanitize(a.title))]
    + When(opts.boardName != "", "board", Sanitize(opts.boardName))
    + When(a.authorUserId != "", "author", Sanitize(a.authorUserId))
  }

  function TimesOf(a: Article): seq<Line> {
    When(a.createdAt != ZERO_TIME, "created_at", FormatTime(a.createdAt))
    + When(a.updatedAt.Some?, "updated_at", FormatTime(OrZero(a.updatedAt)))
  }

  function FactsOf(a: Article): seq<Line> {
    [Line("score", FormatInt(a.recommendScore))]
    + When(a.id > 0, "id", FormatInt(a.id))
    + When(a.pinnedAt.Some?, "pinned", "true")
  }

  function LineText(l: Line): string { l.key + ": " + l.val }

  function LineTexts(ls: seq<Line>): seq<string> {
    if ls == [] then [] else [LineText(ls[0])] + LineTexts(ls[1..])
  }

  function PushText(p: PushRow): string {
    "- " + Glyph(p.kind) + " [" + p.userUserId + "] " + FormatTime(p.createdAt) + "  "
    + ReplaceAll(p.body, "\n", " ")
  }

  function PushTexts(ps: seq<PushRow>): seq<string> {
    if ps == [] then [] else [PushText(ps[0])] + PushTexts(ps[1..])
  }

  function BodyText(b: string): string {
    if b != "" && b[|b| - 1] == '\n' then b else b + "\n"
  }

  function PushBlock(ps: seq<PushRow>, opts: FormatOpts): string {
    if opts.includePushes && ps != [] then "\n" + SENTINEL + "\n" + Unlines(PushTexts(ps)) else ""
  }

  function FormatDoc(a: Article, ps: seq<PushRow>, opts: FormatOpts): string {
    "---\n" + Unlines(LineTexts(FrontmatterOf(a, opts))) + "---\n\n"
    + BodyText(Escape(a.body)) + PushBlock(ps, opts)
  }

  lemma {:induction false} LineTextsConcat(xs: seq<Line>, ys: seq<Line>)
    ensures LineTexts(xs + ys) == LineTexts(xs) + LineTexts(ys)
  {
    if xs == [] {
      assert xs + ys == ys;
    } else {
      assert (xs + ys)[1..] == xs[1..] + ys;
      LineTextsConcat(xs[1..], ys);
    }
  }

  lemma {:induction false} PushTextsSnoc(ps: seq<PushRow>, p: PushRow)
    ensures PushTexts(ps + [p]) == PushTexts(ps) + [PushText(p)]
  {
    hide PushText;
    if ps == [] {
      assert ps + [p] == [p];
    } else {
      assert (ps + [p])[1..] == ps[1..] + [p];
      PushTextsSnoc(ps[1..], p);
    }
  }

  ghost predicate Holds(b: string, ls: seq<Line>) { b == "---\n" + Unlines(LineTexts(ls)) }

  /** `writeFrontmatter` */
  method WriteFrontmatter(b: string, ghost ls: seq<Line>, key: string, val: string)
    returns (out: string, ghost ls': seq<Line>)
    requires Holds(b, ls)
    ensures Holds(out, ls') && ls' == ls + [Line(key, val)]
  {
    out := b + key + ": " + val + "\n";
    ls' := ls + [Line(key, val)];
    LineTextsConcat(ls, [Line(key, val)]);
    assert LineTexts([Line(key, val)]) == [LineText(Line(key, val))];
    UnlinesConcat(LineTexts(ls), [LineText(Line(key, val))]);
    UnlinesOne(LineText(Line(key, val)));
  }

  /** A frontmatter line that is written only when `present`. */
  method WriteWhen(present: bool, b: string, ghost ls: seq<Line>, key: string, val: string)
    returns (out: string, ghost ls': seq<Line>)
    requires Holds(b, ls)
    ensures Holds(out, ls') && ls' == ls + When(present, key, val)
  {
    out, ls' := b, ls;
    if present {
      out, ls' := WriteFrontmatter(b, ls, key, val);
    }
  }

  method WriteNames(a: Article, opts: FormatOpts) returns (b: string)
    ensures Holds(b, NamesOf(a, opts))
  {
    assert Holds("---\n", []);
    hide Sanitize, Holds, When;
    ghost var ls: seq<Line>;
    b, ls := WriteFrontmatter("---\n", [], "title", Sanitize(a.title));
    b, ls := WriteWhen(opts.boardName != "", b, ls, "board", Sanitize(opts.boardName));
    b, ls := WriteWhen(a.authorUserId != "", b, ls, "author", Sanitize(a.authorUserId));
    assert ls == NamesOf(a, opts);
  }

  method WriteHeader(a: Article, opts: FormatOpts) returns (b: string)
    ensures Holds(b, FrontmatterOf(a, opts))
  {
    hide NamesOf, Holds, When, FormatTime, FormatInt;
    b := WriteNames(a, opts);
    ghost var ls := NamesOf(a, opts);
    b, ls := WriteWhen(a.createdAt != ZERO_TIME, b, ls, "created_at", FormatTime(a.createdAt));
    b, ls := WriteWhen(a.updatedAt.Some?, b, ls, "updated_at", FormatTime(OrZero(a.updatedAt)));
    assert ls == NamesOf(a, opts) + TimesOf(a);
    b, ls := WriteFrontmatter(b, ls, "score", FormatInt(a.recommendScore));
    b, ls := WriteWhen(a.id > 0, b, ls, "id", FormatInt(a.id));
    b, ls := WriteWhen(a.pinnedAt.Some?, b, ls, "pinned", "true");
    assert ls == FrontmatterOf(a, opts);
  }

  method WritePushes(b: string, pushes: seq<PushRow>) returns (out: string)
    ensures out == b + Unlines(PushTexts(pushes))
  {
    hide PushText;
    out := b;
    for i := 0 to |pushes|
      invariant out == b + Unlines(PushTexts(pushes[..i]))
    {
      out := out + PushText(pushes[i]) + "\n";
      assert pushes[..i + 1] == pushes[..i] + [pushes[i]];
      PushTextsSnoc(pushes[..i], pushes[i]);
      UnlinesConcat(PushTexts(pushes[..i]), [PushText(pushes[i])]);
      UnlinesOne(PushText(pushes[i]));
    }
    assert pushes[..|pushes|] == pushes;
  }

  /** The body, with the sentinels in it marked, on a line of its own. */
  method WriteBody(b: string, text: string) returns (out: string)
    ensures out == b + BodyText(Escape(text))
  {
    hide ReplaceAll, Index;
    var body := text;
    if Index(body, SENTINEL) >= 0 {
      body := ReplaceAll(body, SENTINEL + MARKER, PLACEHOLDER);
      body := ReplaceAll(body, SENTINEL, SENTINEL + MARKER);
      body := ReplaceAll(body, PLACEHOLDER, SENTINEL + MARKER);
    }
    assert body == Escape(text);
    out := b + body;
    if !(body != "" && body[|body| - 1] == '\n') {
      out := out + "\n";
    }
  }

  method Format(article: Option<Article>, pushes: seq<PushRow>, opts: FormatOpts)
    returns (r: Result<string, string>)
    ensures r.Err? <==> article.None?
    ensures r.Ok? ==> r.value == FormatDoc(article.value, pushes, opts)
  {
    hide Unlines, PushTexts, LineTexts, FrontmatterOf, BodyText, Escape;
    if article.None? {
      return Err("markdown.Format: article is nil");
    }
    var b := WriteHeader(article.value, opts);
    b := WriteBody(b + "---\n\n", article.value.body);
    if opts.includePushes && |pushes| > 0 {
      ghost var head := b;
      b := WritePushes(b + ("\n" + SENTINEL + "\n"), pushes);
      assert b == head + PushBlock(pushes, opts);
    } else {
      assert b + PushBlock(pushes, opts) == b;
    }
    return Ok(b);
  }

  // ------------------------------------------------------------------ reading

  /** One iteration of `parseFrontmatter`. */
  function ReadLine(d: Doc, raw: string): Doc {
    var line := TrimRight(raw, IsCarriageReturn);
    if TrimSpace(line) == "" then d
    else
      var idx := Index(line, ":");
      if idx <= 0 then d
      else SetField(d, TrimSpace(line[..idx]), TrimSpace(line[idx + 1..]))
  }

  function SetField(d: Doc, key: string, val: string): Doc {
    if key == "title" then d.(title := val)
    else if key == "board" then d.(boardName := val)
    else if key == "author" then d.(authorName := val)
    else if key == "created_at" then
      (match ParseTime(val) case Some(t) => d.(createdAt := t) case None => d)
    else if key == "updated_at" then
      (match ParseTime(val) case Some(t) => d.(updatedAt := t) case None => d)
    else if key == "score" then
      (match ParseInt(val) case Some(n) => d.(scoreHint := n) case None => d)
    else if key == "id" then
      (match ParseInt(val) case Some(n) => d.(idHint := n) case None => d)
    else if key == "pinned" then d.(pinned := val == "true" || val == "1")
    else d.(extra := d.extra[key := val])
  }

  function ReadLines(d: Doc, lines: seq<string>): Doc
    decreases lines
  {
    if lines == [] then d else ReadLines(ReadLine(d, lines[0]), lines[1..])
  }

  function KindOfGlyph(glyph: string): Option<PushKind> {
    if glyph == "推" then Some(Push)
    else if glyph == "噓" then Some(Boo)
    else if glyph == "→" then Some(Arrow)
    else None
  }

  /** `parsePushLine` */
  function ReadPush(raw: string): Option<ParsedPush> {
    var s := TrimSpace(raw);
    var ws := IndexFunc(s, IsBlank);
    if ws <= 0 then None
    else
      var rest := TrimLeft(s[ws..], IsBlank);
      var kind := KindOfGlyph(s[..ws]);
      if kind.None? || !("[" <= rest) then None
      else
        var close := Index(rest, "]");
        if close <= 1 then None
        else
          var tail := TrimLeft(rest[close + 1..], IsBlank);
          var stamped := SplitStamp(tail);
          Some(ParsedPush(kind.value, rest[1..close],
            match ParseTime(stamped.0) case Some(t) => t case None => ZERO_TIME,
            stamped.1))
  }

  /** Timestamp and body: two spaces apart, or else one blank, or no body. */
  function SplitStamp(rest: string): (string, string) {
    var sep := Index(rest, "  ");
    if sep >= 0 then (rest[..sep], TrimLeft(rest[sep..], IsBlank))
    else
      var blank := IndexFunc(rest, IsBlank);
      if blank >= 0 then (rest[..blank], TrimLeft(rest[blank..], IsBlank))
      else (rest, "")
  }

  /** One iteration of `parsePushes`: the pushes that a line adds. */
  function ReadPushLine(raw: string): seq<ParsedPush> {
    var line := TrimSpace(TrimRight(raw, IsCarriageReturn));
    if !("- " <= line) then []
    else match ReadPush(line[2..]) case Some(p) => [p] case None => []
  }

  function ReadPushLines(lines: seq<string>): seq<ParsedPush> {
    if lines == [] then [] else ReadPushLine(lines[0]) + ReadPushLines(lines[1..])
  }

  /** The frontmatter text and what follows it. */
  function SplitFrontmatter(md: string): (Option<string>, string) {
    if !("---\n" <= md) then (None, md)
    else
      var rest := md[4..];
      var close := Index(rest, "\n---\n");
      if close >= 0 then (Some(rest[..close]), rest[close + 5..])
      else if |rest| >= 4 && rest[|rest| - 4..] == "\n---" then (Some(rest[..|rest| - 4]), "")
      else (None, rest)
  }

  /** What follows the frontmatter: the text up to the first real sentinel
      without the newlines before it, and the text behind the sentinel. */
  function CutRest(rest: string, s: string, m: string): (string, Option<string>)
    requires |s| > 0
  {
    var cut := FirstReal(rest, s, m);
    if cut < 0 then (TrimRight(rest, IsNewline), None)
    else (TrimRight(rest[..cut], IsNewline), Some(rest[cut + |s|..]))
  }

  function ReadRest(d: Doc, rest: string): Doc {
    var (body, block) := CutRest(rest, SENTINEL, MARKER);
    d.(body := Strip(body),
       pushes := if block.Some? then d.pushes + ReadPushLines(Split(block.value, '\n')) else d.pushes)
  }

  function ParseDoc(md: string): Doc {
    var (fm, rest) := SplitFrontmatter(md);
    var d := if fm.Some? then ReadLines(EMPTY_DOC, Split(fm.value, '\n')) else EMPTY_DOC;
    ReadRest(d, TrimLeft(rest, IsNewline))
  }

  /** The record that `Parse` allocates and its helpers fill in place. */
  class Parsed {
    var title: string
    var boardName: string
    var authorName: string
    var createdAt: Civil
    var updatedAt: Civil
    var scoreHint: int
    var idHint: int
    var pinned: bool
    var body: string
    var pushes: seq<ParsedPush>
    var extra: map<string, string>

    function Value(): Doc
      reads this
    {
      Doc(title, boardName, authorName, createdAt, updatedAt, scoreHint, idHint, pinned, body, pushes, extra)
    }

    constructor ()
      ensures Value() == EMPTY_DOC
    {
      title, boardName, authorName, createdAt, updatedAt := "", "", "", ZERO_TIME, ZERO_TIME;
      scoreHint, idHint, pinned, body, pushes, extra := 0, 0, false, "", [], map[];
    }

    /** `parseFrontmatter` */
    method ParseFrontmatter(fm: string)
      modifies this
      ensures Value() == ReadLines(old(Value()), Split(fm, '\n'))
    {
      var lines := Split(fm, '\n');
      for i := 0 to |lines|
        invariant ReadLines(Value(), lines[i..]) == ReadLines(old(Value()), lines)
      {
        assert lines[i..][0] == lines[i] && lines[i..][1..] == lines[i + 1..];
        ParseLine(lines[i]);
      }
    }

    method ParseLine(raw: string)
      modifies this
      ensures Value() == ReadLine(old(Value()), raw)
    {
      hide SetField, TrimSpace, TrimRight;
      var line := TrimRight(raw, IsCarriageReturn);
      if TrimSpace(line) == "" {
        return;
      }
      var idx := Index(line, ":");
      if idx <= 0 {
        return;
      }
      StoreField(TrimSpace(line[..idx]), TrimSpace(line[idx + 1..]));
    }

    method StoreField(key: string, val: string)
      modifies this
      ensures Value() == SetField(old(Value()), key, val)
    {
      match key
      case "title" => title := val;
      case "board" => boardName := val;
      case "author" => authorName := val;
      case "created_at" =>
        var t := ParseTime(val);
        if t.Some? { createdAt := t.value; }
      case "updated_at" =>
        var t := ParseTime(val);
        if t.Some? { updatedAt := t.value; }
      case "score" =>
        var n := ParseInt(val);
        if n.Some? { scoreHint := n.value; }
      case "id" =>
        var n := ParseInt(val);
        if n.Some? { idHint := n.value; }
      case "pinned" => pinned := val == "true" || val == "1";
      case _ => extra := extra[key := val];
    }

    /** `parsePushes` */
    method ParsePushes(block: string)
      modifies this`pushes
      ensures pushes == old(pushes) + ReadPushLines(Split(block, '\n'))
    {
      hide ReadPush, Trim, TrimRight;
      var lines := Split(block, '\n');
      for i := 0 to |lines|
        invariant pushes + ReadPushLines(lines[i..]) == old(pushes) + ReadPushLines(lines)
      {
        assert lines[i..][0] == lines[i] && lines[i..][1..] == lines[i + 1..];
        var line := TrimSpace(TrimRight(lines[i], IsCarriageReturn));
        if "- " <= line {
          var push := ReadPush(line[2..]);
          if push.Some? {
            pushes := pushes + [push.value];
          }
        }
      }
    }
  }

  /** The frontmatter block, when the text opens with one that is closed. */
  method CutFrontmatter(md: string) returns (fm: Option<string>, rest: string)
    ensures (fm, rest) == SplitFrontmatter(md)
  {
    hide Index;
    fm, rest := None, md;
    if "---\n" <= rest {
      rest := rest[4..];
      var close := Index(rest, "\n---\n");
      var closeAtEOF := false;
      if close < 0 && |rest| >= 4 && rest[|rest| - 4..] == "\n---" {
        close := |rest| - 4;
        closeAtEOF := true;
      }
      if close >= 0 {
        fm := Some(rest[..close]);
        rest := if closeAtEOF then "" else rest[close + 5..];
      }
    }
  }

  method Parse(md: string) returns (p: Parsed)
    ensures fresh(p) && p.Value() == ParseDoc(md)
  {
    hide ReadLines, ReadPushLines, Strip, Split, TrimLeft, TrimRight, FirstReal, SplitFrontmatter, Markers;
    p := new Parsed();
    var fm, rest := CutFrontmatter(md);
    if fm.Some? {
      p.ParseFrontmatter(fm.value);
    }
    rest := TrimLeft(rest, IsNewline);
    TheMarkers();
    var cut := FindReal(rest, SENTINEL, MARKER, PLACEHOLDER);
    if cut < 0 {
      p.body := Strip(TrimRight(rest, IsNewline));
      return;
    }
    p.body := Strip(TrimRight(rest[..cut], IsNewline));
    p.ParsePushes(rest[cut + |SENTINEL|..]);
  }
}
