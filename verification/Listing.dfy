/** The article list of a board (internal/store/articles.go): the title search
    with its escaped `LIKE` pattern, the two orders and the limit. */
module Listing {
  import opened Wrappers
  import opened GoStrings
  import opened Numerals
  import opened Records
  import Forum
  import Sorting

  // --------------------------------------------------------------------- LIKE

  /** `LIKE` ignores case for the ASCII letters only. */
  function Fold(c: char): char {
    if 'A' <= c <= 'Z' then c - 'A' + 'a' else c
  }

  /** `s LIKE p ESCAPE '\'`: `%` matches any run, `_` any character, and an
      escaped character itself; a dangling escape matches nothing. */
  predicate Like(p: string, s: string)
    decreases |p| + |s|
  {
    if p == "" then s == ""
    else if p[0] == '%' then Like(p[1..], s) || (s != "" && Like(p, s[1..]))
    else if p[0] == '_' then s != "" && Like(p[1..], s[1..])
    else if p[0] == '\\' then |p| > 1 && s != "" && Fold(p[1]) == Fold(s[0]) && Like(p[2..], s[1..])
    else s != "" && Fold(p[0]) == Fold(s[0]) && Like(p[1..], s[1..])
  }

  /** `likeEscape.Replace` */
  function LikeEscape(q: string): string {
    if q == "" then ""
    else if q[0] == '\\' || q[0] == '%' || q[0] == '_' then ['\\', q[0]] + LikeEscape(q[1..])
    else [q[0]] + LikeEscape(q[1..])
  }

  /** `q` stands in `s` at `i`, up to ASCII case. */
  predicate OccursFolded(s: string, q: string, i: nat) {
    i + |q| <= |s| && forall k :: 0 <= k < |q| ==> Fold(s[i + k]) == Fold(q[k])
  }

  ghost predicate ContainsFolded(s: string, q: string) { exists i: nat :: OccursFolded(s, q, i) }

  lemma {:induction false} AnyRun(s: string)
    ensures Like("%", s)
  {
    assert "%"[1..] == "";
    if s != "" {
      AnyRun(s[1..]);
    }
  }

  /** The escaped text matches itself and nothing else. */
  lemma {:induction false} EscapedIsLiteral(q: string, s: string)
    ensures Like(LikeEscape(q) + "%", s) <==> OccursFolded(s, q, 0)
  {
    if q == "" {
      assert LikeEscape(q) + "%" == "%";
      AnyRun(s);
    } else {
      var rest := LikeEscape(q[1..]) + "%";
      var p := LikeEscape(q) + "%";
      if q[0] == '\\' || q[0] == '%' || q[0] == '_' {
        assert p == ['\\', q[0]] + rest && p[2..] == rest;
      } else {
        assert p == [q[0]] + rest && p[1..] == rest;
      }
      if s != "" {
        EscapedIsLiteral(q[1..], s[1..]);
        OccursFoldedFront(s, q);
      }
    }
  }

  lemma OccursFoldedFront(s: string, q: string)
    requires s != "" && q != ""
    ensures OccursFolded(s, q, 0) <==> Fold(s[0]) == Fold(q[0]) && OccursFolded(s[1..], q[1..], 0)
  {
    if Fold(s[0]) == Fold(q[0]) && OccursFolded(s[1..], q[1..], 0) {
      forall k | 0 <= k < |q| ensures Fold(s[0 + k]) == Fold(q[k]) {
        assert k > 0 ==> Fold(s[1..][k - 1]) == Fold(q[1..][k - 1]);
      }
    }
    if OccursFolded(s, q, 0) {
      forall k | 0 <= k < |q| - 1 ensures Fold(s[1..][0 + k]) == Fold(q[1..][k]) {
        assert Fold(s[0 + (k + 1)]) == Fold(q[k + 1]);
      }
    }
  }

  lemma OccursFoldedShift(s: string, q: string, i: nat)
    requires s != ""
    ensures OccursFolded(s[1..], q, i) <==> OccursFolded(s, q, i + 1)
  {
    assert forall j :: 0 <= j < |s| - 1 ==> s[1..][j] == s[j + 1];
  }

  /** A leading `%` finds what follows anywhere. */
  lemma {:induction false} LeadingRun(q: string, s: string)
    ensures Like("%" + (LikeEscape(q) + "%"), s) <==> ContainsFolded(s, q)
  {
    var p := "%" + (LikeEscape(q) + "%");
    assert p[1..] == LikeEscape(q) + "%";
    EscapedIsLiteral(q, s);
    if s != "" {
      LeadingRun(q, s[1..]);
      ContainsFoldedTail(s, q);
    }
  }

  lemma ContainsFoldedTail(s: string, q: string)
    requires s != ""
    ensures ContainsFolded(s, q) <==> OccursFolded(s, q, 0) || ContainsFolded(s[1..], q)
  {
    if i: nat :| OccursFolded(s, q, i) {
      if i > 0 {
        OccursFoldedShift(s, q, i - 1);
      }
    }
    if i: nat :| OccursFolded(s[1..], q, i) {
      OccursFoldedShift(s, q, i);
    }
  }

  /** The pattern the search builds. */
  function SearchPattern(q: string): string { "%" + LikeEscape(q) + "%" }

  /** Escaping preserves meaning: the search pattern of `q` matches a title
      exactly when the title contains `q` up to ASCII case, whatever wildcards
      and backslashes `q` is made of. */
  lemma SearchFindsSubstrings(q: string, title: string)
    ensures Like(SearchPattern(q), title) <==> ContainsFolded(title, q)
  {
    assert SearchPattern(q) == "%" + (LikeEscape(q) + "%");
    LeadingRun(q, title);
  }

  /** Case is ignored for the 26 letters of ASCII, and for nothing else. */
  lemma FoldsLettersOnly(c: char, d: char)
    ensures Fold(c) == Fold(d) <==>
              c == d || ('a' <= c <= 'z' && d as int == c as int - 32) || ('A' <= c <= 'Z' && d as int == c as int + 32)
  {
  }

  ghost predicate MatchesTail(p: string, s: string) { exists i: nat :: i <= |s| && Like(p, s[i..]) }

  /** `_` is any one character, and an escaped character is itself. */
  lemma OneCharacter(p: string, s: string)
    ensures Like("_" + p, s) <==> s != "" && Like(p, s[1..])
    ensures forall c: char :: Like(['\\', c] + p, s) <==> s != "" && Fold(c) == Fold(s[0]) && Like(p, s[1..])
  {
    assert ("_" + p)[1..] == p;
    assert forall c: char :: (['\\', c] + p)[2..] == p && (['\\', c] + p)[1] == c;
  }

  /** `%` is any run of characters. */
  lemma {:induction false} AnyRunOf(p: string, s: string)
    ensures Like("%" + p, s) <==> MatchesTail(p, s)
  {
    PercentStep(p, s);
    if s == "" {
      assert s[0..] == s;
    } else {
      AnyRunOf(p, s[1..]);
      TailStep(p, s);
    }
    hide Like;
  }

  lemma PercentStep(p: string, s: string)
    ensures Like("%" + p, s) <==> Like(p, s) || (s != "" && Like("%" + p, s[1..]))
  {
    assert ("%" + p)[1..] == p;
  }

  lemma TailStep(p: string, s: string)
    requires s != ""
    ensures MatchesTail(p, s) <==> Like(p, s) || MatchesTail(p, s[1..])
  {
    hide Like;
    assert s[0..] == s;
    if i: nat :| i <= |s| && Like(p, s[i..]) {
      assert i > 0 ==> s[1..][i - 1..] == s[i..];
    }
    if i: nat :| i <= |s[1..]| && Like(p, s[1..][i..]) {
      assert s[1..][i..] == s[i + 1..];
    }
  }

  // ------------------------------------------------------------------ listing

  datatype Options = Options(limit: int, search: string, byScore: bool)

  /** `x` is a later time than `y`; the stored texts compare field by field. */
  predicate IsAfter(x: Civil, y: Civil) {
    if x.year != y.year then x.year > y.year
    else if x.month != y.month then x.month > y.month
    else if x.day != y.day then x.day > y.day
    else if x.hour != y.hour then x.hour > y.hour
    else if x.minute != y.minute then x.minute > y.minute
    else x.second > y.second
  }

  /** `created_at DESC, id DESC` */
  predicate NotOlder(x: Article, y: Article) {
    IsAfter(x.createdAt, y.createdAt) || (x.createdAt == y.createdAt && x.id >= y.id)
  }

  /** `(pinned_at IS NULL), created_at DESC, id DESC` */
  predicate NewestFirst(x: Article, y: Article) {
    if x.pinnedAt.Some? == y.pinnedAt.Some? then NotOlder(x, y) else x.pinnedAt.Some?
  }

  /** `(pinned_at IS NULL), recommend_score DESC, created_at DESC, id DESC` */
  predicate BestFirst(x: Article, y: Article) {
    if x.pinnedAt.Some? != y.pinnedAt.Some? then x.pinnedAt.Some?
    else x.recommendScore > y.recommendScore || (x.recommendScore == y.recommendScore && NotOlder(x, y))
  }

  function OrderOf(o: Options): (Article, Article) -> bool { if o.byScore then BestFirst else NewestFirst }

  predicate Selected(a: Article, board: int, o: Options) {
    var q := TrimSpace(o.search);
    a.boardId == board && (q == "" || Like(SearchPattern(q), a.title))
  }

  function Matching(rows: seq<Article>, board: int, o: Options): seq<Article> {
    if rows == [] then []
    else if Selected(rows[0], board, o) then [rows[0]] + Matching(rows[1..], board, o)
    else Matching(rows[1..], board, o)
  }

  function Clip(limit: int): nat { if limit <= 0 then 50 else limit }

  /** `ListByBoardOpts` */
  function ListByBoard(rows: seq<Article>, board: int, o: Options): seq<Article> {
    var sorted := Sorting.Sort(Matching(rows, board, o), OrderOf(o));
    if |sorted| <= Clip(o.limit) then sorted else sorted[..Clip(o.limit)]
  }

  lemma {:induction false} MatchingIs(rows: seq<Article>, board: int, o: Options, a: Article)
    ensures a in Matching(rows, board, o) <==> a in rows && Selected(a, board, o)
  {
    if rows != [] {
      MatchingIs(rows[1..], board, o, a);
      assert rows == [rows[0]] + rows[1..];
    }
  }

  lemma {:induction false} MatchingIds(rows: seq<Article>, lo: int, hi: int, board: int, o: Options)
    requires Forum.ArticleIds(rows, lo, hi)
    ensures Forum.ArticleIds(Matching(rows, board, o), lo, hi)
  {
    if rows != [] {
      MatchingIds(rows[1..], rows[0].id + 1, hi, board, o);
      Forum.ArticleIdsWiden(Matching(rows[1..], board, o), rows[0].id + 1, lo, hi, hi);
      assert Selected(rows[0], board, o) ==> Matching(rows, board, o)[1..] == Matching(rows[1..], board, o);
    }
  }

  lemma TimesAreOrdered()
    ensures forall x, y :: IsAfter(x, y) || IsAfter(y, x) || x == y
    ensures forall x, y :: IsAfter(x, y) ==> !IsAfter(y, x) && x != y
    ensures forall x, y, z :: IsAfter(x, y) && IsAfter(y, z) ==> IsAfter(x, z)
  {
  }

  lemma OrdersAreTotal(o: Options)
    ensures Sorting.TotalPreorder(OrderOf(o))
  {
    hide IsAfter;
    TimesAreOrdered();
    assert Sorting.TotalPreorder(BestFirst);
    assert Sorting.TotalPreorder(NewestFirst);
  }

  /** What the caller asked for, in terms of the table alone. */
  ghost predicate Wanted(a: Article, board: int, o: Options) {
    a.boardId == board && (TrimSpace(o.search) == "" || ContainsFolded(a.title, TrimSpace(o.search)))
  }

  lemma {:induction false} IdsAreDistinct(rows: seq<Article>, lo: int, hi: int)
    requires Forum.ArticleIds(rows, lo, hi)
    ensures forall a :: a in rows ==> lo <= a.id
    ensures forall a, b :: a in rows && b in rows && a.id == b.id ==> a == b
    ensures Sorting.Distinct(rows)
  {
    if rows != [] {
      IdsAreDistinct(rows[1..], rows[0].id + 1, hi);
      assert rows == [rows[0]] + rows[1..];
    }
  }

  // What the two orders are, in terms of the fields.

  /** Year, month, day, hour, minute and second. */
  function FieldsOf(t: Civil): seq<nat> { [t.year, t.month, t.day, t.hour, t.minute, t.second] }

  /** The first field in which the times differ is larger in `x`. */
  predicate LaterBy(x: Civil, y: Civil, k: nat) {
    k < 6 && FieldsOf(x)[..k] == FieldsOf(y)[..k] && FieldsOf(x)[k] > FieldsOf(y)[k]
  }

  ghost predicate Later(x: Civil, y: Civil) { exists k: nat :: LaterBy(x, y, k) }

  /** `x` is to be shown before `y`: pinned articles first; then, when listing by
      score, the higher score; then the later article; then the higher id. */
  ghost predicate ShownBefore(x: Article, y: Article, byScore: bool) {
    if x.pinnedAt.Some? != y.pinnedAt.Some? then x.pinnedAt.Some?
    else if byScore && x.recommendScore != y.recommendScore then x.recommendScore > y.recommendScore
    else Later(x.createdAt, y.createdAt) || (x.createdAt == y.createdAt && x.id > y.id)
  }

  lemma LaterIsAfter(x: Civil, y: Civil)
    ensures Later(x, y) <==> IsAfter(x, y)
  {
    var f, g := FieldsOf(x), FieldsOf(y);
    if IsAfter(x, y) {
      var k := if x.year != y.year then 0 else if x.month != y.month then 1 else if x.day != y.day then 2
               else if x.hour != y.hour then 3 else if x.minute != y.minute then 4 else 5;
      assert LaterBy(x, y, k);
    }
    if k: nat :| LaterBy(x, y, k) {
      forall j | 0 <= j < k ensures f[j] == g[j] {
        assert f[..k][j] == g[..k][j];
      }
      assert k > 0 ==> f[0] == g[0];
      assert k > 1 ==> f[1] == g[1];
      assert k > 2 ==> f[2] == g[2];
      assert k > 3 ==> f[3] == g[3];
      assert k > 4 ==> f[4] == g[4];
    }
  }

  lemma ShownInOrder(x: Article, y: Article, o: Options)
    requires x.id != y.id
    ensures ShownBefore(x, y, o.byScore) <==> OrderOf(o)(x, y)
  {
    LaterIsAfter(x.createdAt, y.createdAt);
    hide IsAfter, Later;
  }

  /** The list holds only what was asked for, without repeats; each article is
      shown before those behind it; what was asked for and is not in the list
      would come after all that is, and then the list is as long as the limit,
      50 when none is given. */
  lemma ListingIsExact(rows: seq<Article>, hi: int, board: int, o: Options)
    requires Forum.ArticleIds(rows, 1, hi)
    ensures var out, limit := ListByBoard(rows, board, o), if o.limit <= 0 then 50 else o.limit;
      && |out| <= limit
      && (forall i, j :: 0 <= i < j < |out| ==> out[i] != out[j] && ShownBefore(out[i], out[j], o.byScore))
      && (forall a :: a in out ==> a in rows && Wanted(a, board, o))
      && (forall a :: a in rows && Wanted(a, board, o) && a !in out ==>
            |out| == limit && forall b :: b in out ==> ShownBefore(b, a, o.byScore))
  {
    hide Like, ContainsFolded, TrimSpace, NewestFirst, BestFirst, SearchPattern, ShownBefore;
    var order, out := OrderOf(o), ListByBoard(rows, board, o);
    ListedInOrder(rows, hi, board, o);
    IdsAreDistinct(rows, 1, hi);
    forall x, y | x in rows && y in rows && x != y
      ensures ShownBefore(x, y, o.byScore) <==> order(x, y)
    {
      ShownInOrder(x, y, o);
    }
  }

  lemma ListedInOrder(rows: seq<Article>, hi: int, board: int, o: Options)
    requires Forum.ArticleIds(rows, 1, hi)
    ensures var out, order := ListByBoard(rows, board, o), OrderOf(o);
      && |out| <= Clip(o.limit) && Sorting.Sorted(out, order) && Sorting.Distinct(out)
      && (forall a :: a in out ==> a in rows && Wanted(a, board, o))
      && (forall a :: a in rows && Wanted(a, board, o) && a !in out ==>
            |out| == Clip(o.limit) && forall b :: b in out ==> order(b, a))
  {
    hide Like, ContainsFolded, TrimSpace, NewestFirst, BestFirst, SearchPattern;
    var found, order := Matching(rows, board, o), OrderOf(o);
    var sorted, out := Sorting.Sort(found, order), ListByBoard(rows, board, o);
    OrdersAreTotal(o);
    Sorting.SortSorts(found, order);
    Sorting.SameElements(found, sorted);
    MatchingIds(rows, 1, hi, board, o);
    IdsAreDistinct(found, 1, hi);
    Sorting.DistinctArrangement(found, sorted);
    forall a ensures a in sorted <==> a in rows && Wanted(a, board, o) {
      MatchingIs(rows, board, o, a);
      SearchFindsSubstrings(TrimSpace(o.search), a.title);
    }
    forall a | a in sorted && a !in out ensures forall b :: b in out ==> order(b, a) {
      Sorting.BeyondTheCut(sorted, order, |out|, a);
    }
  }

  lemma ArrangedInOrder(found: seq<Article>, other: seq<Article>, o: Options)
    requires forall a, b :: a in found && b in found && a.id == b.id ==> a == b
    requires Sorting.Distinct(other) && forall a :: a in other ==> a in found
    requires forall i, j :: 0 <= i < j < |other| ==> ShownBefore(other[i], other[j], o.byScore)
    ensures Sorting.Sorted(other, OrderOf(o))
  {
    hide ShownBefore;
    forall i, j | 0 <= i < j < |other| ensures OrderOf(o)(other[i], other[j]) {
      assert other[i] in found && other[j] in found;
      ShownInOrder(other[i], other[j], o);
    }
  }

  lemma NoTwoTie(found: seq<Article>, o: Options)
    requires forall a, b :: a in found && b in found && a.id == b.id ==> a == b
    ensures Sorting.NoTies(found, OrderOf(o))
  {
    hide IsAfter;
    TimesAreOrdered();
  }

  lemma SameWhenDistinct(xs: seq<Article>, ys: seq<Article>)
    requires Sorting.Distinct(xs) && Sorting.Distinct(ys) && forall a :: a in xs <==> a in ys
    ensures multiset(xs) == multiset(ys)
  {
    forall a ensures multiset(xs)[a] == multiset(ys)[a] {
      Sorting.DistinctCount(xs, a);
      Sorting.DistinctCount(ys, a);
      assert (a in xs <==> a in multiset(xs)) && (a in ys <==> a in multiset(ys));
    }
  }

  /** No two articles tie, so the list is settled: whatever arrangement of what was
      asked for shows each article before those behind it, the list is that
      arrangement, up to the limit. */
  lemma OrderIsUnique(rows: seq<Article>, hi: int, board: int, o: Options, other: seq<Article>)
    requires Forum.ArticleIds(rows, 1, hi)
    requires Sorting.Distinct(other) && forall a :: a in other <==> a in rows && Wanted(a, board, o)
    requires forall i, j :: 0 <= i < j < |other| ==> ShownBefore(other[i], other[j], o.byScore)
    ensures var limit := if o.limit <= 0 then 50 else o.limit;
      ListByBoard(rows, board, o) == if |other| <= limit then other else other[..limit]
  {
    hide Like, ContainsFolded, TrimSpace, Matching, ShownBefore, OrderOf, Forum.ArticleIds;
    var found, order := Matching(rows, board, o), OrderOf(o);
    OrdersAreTotal(o);
    Sorting.SortSorts(found, order);
    MatchingIds(rows, 1, hi, board, o);
    IdsAreDistinct(found, 1, hi);
    forall a ensures a in other <==> a in found {
      MatchingIs(rows, board, o, a);
      SearchFindsSubstrings(TrimSpace(o.search), a.title);
    }
    SameWhenDistinct(other, found);
    ArrangedInOrder(found, other, o);
    NoTwoTie(found, o);
    Sorting.SortedIsUnique(other, Sorting.Sort(found, order), order);
  }
}
