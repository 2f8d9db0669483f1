/** The text that `Format` writes, word for word, and the number and time texts in
    it (internal/markdown/markdown.go). */
module Writing {
  import opened Wrappers
  import opened Numerals
  import opened GoStrings
  import opened Sentinel
  import opened Records
  import opened Markdown
  import opened Reading

  function If(c: bool, t: string): string { if c then t else "" }

  // ------------------------------------------------------------------ the text

  lemma LinesConcat(xs: seq<Line>, ys: seq<Line>)
    ensures Unlines(LineTexts(xs + ys)) == Unlines(LineTexts(xs)) + Unlines(LineTexts(ys))
  {
    LineTextsConcat(xs, ys);
    UnlinesConcat(LineTexts(xs), LineTexts(ys));
  }

  lemma OneLine(c: bool, key: string, val: string)
    ensures Unlines(LineTexts(When(c, key, val))) == If(c, key + ": " + val + "\n")
    ensures Unlines(LineTexts([Line(key, val)])) == key + ": " + val + "\n"
  {
    var l := Line(key, val);
    assert LineTexts([l]) == [LineText(l)] + LineTexts([]) == [LineText(l)];
    UnlinesOne(LineText(l));
    assert LineTexts([]) == [] && Unlines([]) == "";
  }

  lemma ThreeLines(x: seq<Line>, y: seq<Line>, z: seq<Line>)
    ensures Unlines(LineTexts(x + y + z))
         == Unlines(LineTexts(x)) + Unlines(LineTexts(y)) + Unlines(LineTexts(z))
  {
    hide LineTexts, Unlines;
    LinesConcat(x, y);
    LinesConcat(x + y, z);
  }

  lemma NamesText(a: Article, opts: FormatOpts)
    ensures Unlines(LineTexts(NamesOf(a, opts)))
         == "title: " + Sanitize(a.title) + "\n"
            + If(opts.boardName != "", "board: " + Sanitize(opts.boardName) + "\n")
            + If(a.authorUserId != "", "author: " + Sanitize(a.authorUserId) + "\n")
  {
    hide LineTexts, Unlines, Sanitize, If, When;
    ThreeLines([Line("title", Sanitize(a.title))], When(opts.boardName != "", "board", Sanitize(opts.boardName)),
               When(a.authorUserId != "", "author", Sanitize(a.authorUserId)));
    OneLine(true, "title", Sanitize(a.title));
    OneLine(opts.boardName != "", "board", Sanitize(opts.boardName));
    OneLine(a.authorUserId != "", "author", Sanitize(a.authorUserId));
    assert "title" + ": " == "title: " && "board" + ": " == "board: " && "author" + ": " == "author: ";
  }

  lemma TimesText(a: Article)
    ensures Unlines(LineTexts(TimesOf(a)))
         == If(a.createdAt != ZERO_TIME, "created_at: " + FormatTime(a.createdAt) + "\n")
            + If(a.updatedAt.Some?, "updated_at: " + FormatTime(OrZero(a.updatedAt)) + "\n")
  {
    hide LineTexts, Unlines, FormatTime, If, When;
    LinesConcat(When(a.createdAt != ZERO_TIME, "created_at", FormatTime(a.createdAt)),
                When(a.updatedAt.Some?, "updated_at", FormatTime(OrZero(a.updatedAt))));
    OneLine(a.createdAt != ZERO_TIME, "created_at", FormatTime(a.createdAt));
    OneLine(a.updatedAt.Some?, "updated_at", FormatTime(OrZero(a.updatedAt)));
    assert "created_at" + ": " == "created_at: " && "updated_at" + ": " == "updated_at: ";
  }

  lemma FactsText(a: Article)
    ensures Unlines(LineTexts(FactsOf(a)))
         == "score: " + FormatInt(a.recommendScore) + "\n"
            + If(a.id > 0, "id: " + FormatInt(a.id) + "\n") + If(a.pinnedAt.Some?, "pinned: true\n")
  {
    hide LineTexts, Unlines, FormatInt, If, When;
    ThreeLines([Line("score", FormatInt(a.recommendScore))], When(a.id > 0, "id", FormatInt(a.id)),
               When(a.pinnedAt.Some?, "pinned", "true"));
    OneLine(true, "score", FormatInt(a.recommendScore));
    OneLine(a.id > 0, "id", FormatInt(a.id));
    OneLine(a.pinnedAt.Some?, "pinned", "true");
    assert "score" + ": " == "score: " && "id" + ": " == "id: " && "pinned" + ": " + "true" + "\n" == "pinned: true\n";
  }

  /** The whole document: the frontmatter between its two delimiters, each optional
      line exactly when there is something to say, an empty line, the body on
      lines of its own, and the push lines behind the sentinel when there are
      pushes and they are asked for. */
  lemma DocumentText(a: Article, ps: seq<PushRow>, opts: FormatOpts)
    ensures FormatDoc(a, ps, opts)
         == "---\n"
            + (("title: " + Sanitize(a.title) + "\n"
                + If(opts.boardName != "", "board: " + Sanitize(opts.boardName) + "\n")
                + If(a.authorUserId != "", "author: " + Sanitize(a.authorUserId) + "\n"))
               + (If(a.createdAt != Civil(1, 1, 1, 0, 0, 0), "created_at: " + FormatTime(a.createdAt) + "\n")
                  + If(a.updatedAt.Some?, "updated_at: " + FormatTime(OrZero(a.updatedAt)) + "\n"))
               + ("score: " + FormatInt(a.recommendScore) + "\n"
                  + If(a.id > 0, "id: " + FormatInt(a.id) + "\n") + If(a.pinnedAt.Some?, "pinned: true\n")))
            + "---\n\n"
            + (var e := Escape(a.body); e + If(e == "" || e[|e| - 1] != '\n', "\n"))
            + If(opts.includePushes && ps != [], "\n<!-- sshbbs:pushes -->\n" + Unlines(PushTexts(ps)))
  {
    hide LineTexts, Unlines, Sanitize, FormatTime, FormatInt, Escape, PushTexts, NamesOf, TimesOf, FactsOf,
         BodyText, PushBlock, If;
    ThreeLines(NamesOf(a, opts), TimesOf(a), FactsOf(a));
    NamesText(a, opts);
    TimesText(a);
    FactsText(a);
    BodyEnds(Escape(a.body));
    BlockText(ps, opts);
  }

  lemma BlockText(ps: seq<PushRow>, opts: FormatOpts)
    ensures PushBlock(ps, opts)
         == If(opts.includePushes && ps != [], "\n<!-- sshbbs:pushes -->\n" + Unlines(PushTexts(ps)))
  {
    hide Unlines, PushTexts;
    assert "\n" + SENTINEL + "\n" == "\n<!-- sshbbs:pushes -->\n";
  }

  lemma BodyEnds(e: string)
    ensures BodyText(e) == e + If(e == "" || e[|e| - 1] != '\n', "\n")
  {
    assert e + "" == e;
  }

  /** One push line: dash, glyph, author in brackets, time, two spaces, and the body
      on one line. */
  lemma PushLineText(p: PushRow, g: string)
    requires IsGlyph(p.kind, g)
    ensures exists flat :: IsFlat(p.body, flat)
              && PushText(p) == "- " + g + " [" + p.userUserId + "] " + FormatTime(p.createdAt) + "  " + flat
  {
    hide FormatTime, ReplaceAll;
    SpacedIs(p.body, '\n');
    assert IsFlat(p.body, ReplaceAll(p.body, "\n", " "));
  }

  /** `t` is `s` with every newline made a space. */
  predicate IsFlat(s: string, t: string) {
    |t| == |s| && forall i :: 0 <= i < |s| ==> t[i] == if s[i] == '\n' then ' ' else s[i]
  }

  lemma {:induction false} SpacedIs(s: string, c: char)
    ensures var t := ReplaceAll(s, [c], " ");
      |t| == |s| && forall i :: 0 <= i < |s| ==> t[i] == if s[i] == c then ' ' else s[i]
  {
    if s != "" {
      assert [c] <= s <==> s[0] == c;
      SpacedIs(s[1..], c);
    }
  }

  /** A frontmatter value keeps every rune but newlines and carriage returns, which
      become spaces. */
  lemma SanitizeIs(s: string)
    ensures var t := Sanitize(s);
      |t| == |s| && forall i :: 0 <= i < |s| ==> t[i] == if s[i] == '\n' || s[i] == '\r' then ' ' else s[i]
  {
    SpacedIs(s, '\r');
    SpacedIs(ReplaceAll(s, "\r", " "), '\n');
    hide ReplaceAll;
  }

  /** The marker and the placeholder, word for word. */
  lemma EscapedTexts()
    ensures Escape("<!-- sshbbs:pushes -->") == "<!-- sshbbs:pushes -->" + "<!-- sshbbs:literal -->"
    ensures PLACEHOLDER == "\0LITERAL_MARKED\0"
  {
    TheMarkers();
    OccursAtFront(SENTINEL, SENTINEL);
    OneSentinel(SENTINEL, MARKER, PLACEHOLDER);
    hide Index, OccursAt;
    assert Index(SENTINEL, SENTINEL) >= 0;
  }

  lemma OneSentinel(s: string, m: string, p: string)
    requires Markers(s, m, p)
    ensures Rewrite(s, s, m, p) == s + m
  {
    TooShort(s, s + m, p);
    ReplaceWhole(s, s + m);
    assert p[0] !in s + m;
    NothingToReplace(s + m, p, s + m);
  }

  lemma TooShort(t: string, x: string, y: string)
    requires |t| < |x|
    ensures ReplaceAll(t, x, y) == t
  {
    forall i: nat ensures !OccursAt(t, x, i) {
    }
    RewrittenZero(t, x);
  }

  // ------------------------------------------------------------------- numbers

  lemma DigitsStep(n: nat)
    ensures Digits(n) == if n < 10 then [Digit(n)] else Digits(n / 10) + [Digit(n % 10)]
  {
  }

  lemma ZerosStep(n: nat)
    ensures Zeros(n) == if n == 0 then "" else Zeros(n - 1) + "0"
  {
  }

  lemma PaddedIs(n: nat, w: nat)
    ensures |Digits(n)| >= w ==> Padded(n, w) == Digits(n)
    ensures |Digits(n)| < w ==> Padded(n, w) == Zeros(w - |Digits(n)|) + Digits(n)
  {
  }

  lemma PaddedStep(n: nat, w: nat)
    requires w > 1
    ensures Padded(n, w) == Padded(n / 10, w - 1) + [Digit(n % 10)]
  {
    if n < 10 {
      PaddedDigit(n, w);
    } else {
      PaddedTens(n, w);
    }
  }

  lemma PaddedDigit(n: nat, w: nat)
    requires w > 1 && n < 10
    ensures Padded(n, w) == Padded(0, w - 1) + [Digit(n)]
  {
    DigitsStep(n);
    DigitsStep(0);
    PaddedIs(n, w);
    PaddedIs(0, w - 1);
    ZerosStep(w - 1);
    ZerosStep(0);
    hide *;
    assert |Digits(0)| == 1 && |Digits(n)| == 1;
    assert Padded(0, w - 1) == Zeros(w - 1);
  }

  lemma PaddedTens(n: nat, w: nat)
    requires w > 1 && n >= 10
    ensures Padded(n, w) == Padded(n / 10, w - 1) + [Digit(n % 10)]
  {
    DigitsStep(n);
    PaddedIs(n, w);
    PaddedIs(n / 10, w - 1);
    hide *;
    var d, q, c := Digits(n), Digits(n / 10), [Digit(n % 10)];
    assert |d| == |q| + 1;
    if |d| < w {
      Behind(Zeros(w - |d|), q, c);
    }
  }

  lemma Behind(x: string, y: string, z: string)
    ensures x + (y + z) == x + y + z
  {
  }

  lemma FromDigitsStep(d: string)
    requires d != "" && AllDigits(d)
    ensures var c := d[|d| - 1] as int - '0' as int; var f := d[..|d| - 1];
      AllDigits(f) && 0 <= c < 10 && FromDigits(d) == 10 * FromDigits(f) + c && Digit(c) == d[|d| - 1]
  {
  }

  lemma Tens(q: nat, r: nat)
    requires r < 10
    ensures (10 * q + r) / 10 == q && (10 * q + r) % 10 == r
  {
  }

  lemma PaddedSnoc(f: string, q: nat, c: nat)
    requires f != "" && Padded(q, |f|) == f && c < 10
    ensures Padded(10 * q + c, |f| + 1) == f + [Digit(c)]
  {
    Tens(q, c);
    PaddedStep(10 * q + c, |f| + 1);
    hide *;
  }

  lemma LastDigit(d: string) returns (c: nat)
    requires d != "" && AllDigits(d)
    ensures c < 10 && d == d[..|d| - 1] + [Digit(c)] && AllDigits(d[..|d| - 1])
    ensures FromDigits(d) == 10 * FromDigits(d[..|d| - 1]) + c
  {
    FromDigitsStep(d);
    c := d[|d| - 1] as int - '0' as int;
  }

  /** Texts and numbers correspond digit by digit. */
  lemma {:induction false} PaddedInverts(d: string)
    requires d != "" && AllDigits(d)
    ensures Padded(FromDigits(d), |d|) == d
  {
    if |d| == 1 {
      OneDigit(d, d[0] as int - '0' as int);
    } else {
      hide *;
      var c := LastDigit(d);
      var f := d[..|d| - 1];
      PaddedInverts(f);
      PaddedSnoc(f, FromDigits(f), c);
    }
  }

  lemma OneDigit(d: string, c: nat)
    requires |d| == 1 && AllDigits(d) && c == d[0] as int - '0' as int
    ensures Padded(FromDigits(d), 1) == d
  {
    FromDigitsStep(d);
    DigitsStep(c);
    PaddedIs(c, 1);
    assert FromDigits(d[..0]) == 0;
    hide Digits, Padded;
  }

  /** What is read as a number: digits, with or without a sign, within 64 bits. */
  lemma ParseIntExactly(ds: string)
    requires AllDigits(ds)
    ensures ParseInt(ds) == ParseInt("+" + ds)
         == if ds != "" && FromDigits(ds) < 9223372036854775808 then Some(FromDigits(ds)) else None
    ensures ParseInt("-" + ds)
         == if ds != "" && FromDigits(ds) <= 9223372036854775808 then Some(-(FromDigits(ds) as int)) else None
  {
    assert ("+" + ds)[1..] == ds && ("-" + ds)[1..] == ds;
    assert ds != "" ==> IsDigit(ds[0]);
    hide FromDigits;
  }

  lemma OtherTextsAreNoNumbers(s: string)
    requires !AllDigits(s) && (s == "" || (s[0] != '+' && s[0] != '-') || !AllDigits(s[1..]))
    ensures ParseInt(s) == None
  {
  }

  /** The shortest decimal text: no zero in front, but for zero itself. */
  lemma {:induction false} DigitsHaveNoLeadingZero(n: nat)
    ensures n > 0 ==> Digits(n)[0] != '0'
    ensures n == 0 ==> Digits(n) == "0"
  {
    if n >= 10 {
      DigitsHaveNoLeadingZero(n / 10);
    }
  }

  // --------------------------------------------------------------------- times

  /** The days of the Gregorian calendar. */
  lemma CalendarDays(t: Civil)
    ensures ValidCivil(t) <==>
              && t.year <= 9999 && 1 <= t.month <= 12 && 1 <= t.day <= 31
              && (t.day == 31 ==> t.month in {1, 3, 5, 7, 8, 10, 12})
              && (t.day == 30 ==> t.month != 2)
              && (t.day == 29 && t.month == 2 ==> t.year % 400 == 0 || (t.year % 4 == 0 && t.year % 100 != 0))
              && t.hour <= 23 && t.minute <= 59 && t.second <= 59
  {
  }

  lemma TimeParts(s: string)
    requires |s| == 20 && s[4] == '-' && s[7] == '-' && s[10] == 'T' && s[13] == ':' && s[16] == ':' && s[19] == 'Z'
    ensures s == Stamp(s[0..4], s[5..7], s[8..10], s[11..13], s[14..16], s[17..19])
  {
    var a, b := s[..10], s[10..];
    assert a == s[0..4] + "-" + s[5..7] + "-" + s[8..10];
    assert b == "T" + s[11..13] + ":" + s[14..16] + ":" + s[17..19] + "Z";
    assert s == a + b;
  }

  lemma TimeFields(s: string, t: Civil)
    requires ParseTime(s) == Some(t)
    ensures |s| == 20 && s[4] == '-' && s[7] == '-' && s[10] == 'T' && s[13] == ':' && s[16] == ':' && s[19] == 'Z'
    ensures AllDigits(s[0..4]) && AllDigits(s[5..7]) && AllDigits(s[8..10])
    ensures AllDigits(s[11..13]) && AllDigits(s[14..16]) && AllDigits(s[17..19])
    ensures t == Civil(FromDigits(s[0..4]), FromDigits(s[5..7]), FromDigits(s[8..10]),
                       FromDigits(s[11..13]), FromDigits(s[14..16]), FromDigits(s[17..19]))
    ensures ValidCivil(t)
  {
    hide FromDigits, AllDigits, ValidCivil;
  }

  lemma FormatTimeIs(t: Civil)
    ensures FormatTime(t) == Stamp(Padded(t.year, 4), Padded(t.month, 2), Padded(t.day, 2),
                                   Padded(t.hour, 2), Padded(t.minute, 2), Padded(t.second, 2))
  {
  }

  /** A text is read as a time exactly when it is what is written for that time. */
  lemma ParseTimeExactly(s: string, t: Civil)
    ensures ParseTime(s) == Some(t) <==> ValidCivil(t) && s == FormatTime(t)
  {
    hide *;
    ParseTimeInvertsFormat(t);
    if ParseTime(s) == Some(t) {
      TimeFields(s, t);
      TimeParts(s);
      FormatTimeIs(t);
      PaddedInverts(s[0..4]);
      PaddedInverts(s[5..7]);
      PaddedInverts(s[8..10]);
      PaddedInverts(s[11..13]);
      PaddedInverts(s[14..16]);
      PaddedInverts(s[17..19]);
    }
  }

  /** The written form of RFC 3339 (section 5.6): each field in decimal, in its place. */
  lemma TimeShape(t: Civil)
    requires ValidCivil(t)
    ensures var s := FormatTime(t);
      && |s| == 20 && s[4] == '-' && s[7] == '-' && s[10] == 'T' && s[13] == ':' && s[16] == ':' && s[19] == 'Z'
      && AllDigits(s[0..4]) && FromDigits(s[0..4]) == t.year && AllDigits(s[5..7]) && FromDigits(s[5..7]) == t.month
      && AllDigits(s[8..10]) && FromDigits(s[8..10]) == t.day
      && AllDigits(s[11..13]) && FromDigits(s[11..13]) == t.hour
      && AllDigits(s[14..16]) && FromDigits(s[14..16]) == t.minute
      && AllDigits(s[17..19]) && FromDigits(s[17..19]) == t.second
  {
    ParseTimeInvertsFormat(t);
    hide FormatTime, FromDigits, AllDigits, ValidCivil;
  }

  /** A number written out. */
  lemma WrittenOut()
    ensures FormatInt(-1203) == "-1203"
  {
    DigitsStep(1203);
    DigitsStep(120);
    DigitsStep(12);
    DigitsStep(1);
    hide Digits, FromDigits, AllDigits;
    assert Digits(12) == "12" && Digits(120) == "120" && Digits(1203) == "1203";
  }
}
