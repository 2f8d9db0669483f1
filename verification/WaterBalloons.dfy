/** The water-balloon table (internal/store/waterballoons.go): its queries, its
    updates, and the inbox roll-up with one line per counterparty. */
module WaterBalloons {
  import opened Wrappers
  import Sorting

  /** A row of `water_balloons`.  Rows are never deleted, so a row's id is its
      position in the table; `read` says whether `read_at` is set. */
  datatype Balloon = Balloon(from: int, to: int, body: string, read: bool, createdAt: int)

  // ------------------------------------------------------------------ queries

  /** The `WHERE` clauses of the repository. */
  datatype Query =
    | UnreadTo(user: int)
    | UnreadFrom(viewer: int, counterparty: int)
    | Between(viewer: int, counterparty: int)

  predicate Matches(q: Query, b: Balloon) {
    match q
    case UnreadTo(user) => b.to == user && !b.read
    case UnreadFrom(viewer, cp) => b.to == viewer && b.from == cp && !b.read
    case Between(viewer, cp) => (b.from == viewer && b.to == cp) || (b.from == cp && b.to == viewer)
  }

  /** `SELECT id ... WHERE q ORDER BY id ASC` over the rows below `n`. */
  function Select(rows: seq<Balloon>, q: Query, n: nat): seq<nat>
    requires n <= |rows|
  {
    if n == 0 then []
    else Select(rows, q, n - 1) + if Matches(q, rows[n - 1]) then [n - 1] else []
  }

  function SelectAll(rows: seq<Balloon>, q: Query): seq<nat> { Select(rows, q, |rows|) }

  lemma {:induction false} SelectIs(rows: seq<Balloon>, q: Query, n: nat)
    requires n <= |rows|
    ensures forall r: nat :: r in Select(rows, q, n) <==> r < n && Matches(q, rows[r])
    ensures forall i, j :: 0 <= i < j < |Select(rows, q, n)| ==> Select(rows, q, n)[i] < Select(rows, q, n)[j]
  {
    if n > 0 {
      SelectIs(rows, q, n - 1);
      var xs := Select(rows, q, n - 1);
      forall i | 0 <= i < |xs| ensures xs[i] < n - 1 {
        assert xs[i] in xs;
      }
    }
  }

  /** `UPDATE ... SET read_at = CURRENT_TIMESTAMP WHERE q` */
  function MarkWhere(rows: seq<Balloon>, q: Query): (r: seq<Balloon>)
    ensures |r| == |rows|
    ensures forall i: nat :: i < |rows| ==> r[i] == if Matches(q, rows[i]) then rows[i].(read := true) else rows[i]
  {
    seq(|rows|, i requires 0 <= i < |rows| => if Matches(q, rows[i]) then rows[i].(read := true) else rows[i])
  }

  function MarkOne(rows: seq<Balloon>, id: nat): seq<Balloon> {
    if id < |rows| then rows[id := rows[id].(read := true)] else rows
  }

  /** What each query selects, by the fields of the rows. */
  lemma QueriesSelect(rows: seq<Balloon>, x: int, y: int, r: nat)
    ensures r in SelectAll(rows, UnreadTo(x)) <==> r < |rows| && rows[r].to == x && !rows[r].read
    ensures r in SelectAll(rows, UnreadFrom(x, y)) <==>
              r < |rows| && rows[r].to == x && rows[r].from == y && !rows[r].read
    ensures r in SelectAll(rows, Between(x, y)) <==>
              r < |rows| && ((rows[r].from == x && rows[r].to == y) || (rows[r].from == y && rows[r].to == x))
  {
    SelectIs(rows, UnreadTo(x), |rows|);
    SelectIs(rows, UnreadFrom(x, y), |rows|);
    SelectIs(rows, Between(x, y), |rows|);
  }

  // ------------------------------------------------------------- the roll-up

  predicate Involves(b: Balloon, viewer: int) { b.from == viewer || b.to == viewer }

  function Partner(b: Balloon, viewer: int): int { if b.from == viewer then b.to else b.from }

  function UnreadBy(b: Balloon, viewer: int): nat { if b.to == viewer && !b.read then 1 else 0 }

  /** A group of the query: `MAX(id)` and the unread sum of one counterparty. */
  datatype Entry = Entry(counterparty: int, lastId: nat, unread: nat)

  function Upsert(es: seq<Entry>, cp: int, id: nat, unread: nat): seq<Entry> {
    if es == [] then [Entry(cp, id, unread)]
    else if es[0].counterparty == cp then
      [Entry(cp, if id > es[0].lastId then id else es[0].lastId, es[0].unread + unread)] + es[1..]
    else [es[0]] + Upsert(es[1..], cp, id, unread)
  }

  /** `GROUP BY cp_id` over the rows below `n`. */
  function Groups(rows: seq<Balloon>, viewer: int, n: nat): seq<Entry>
    requires n <= |rows|
  {
    if n == 0 then []
    else
      var es, b := Groups(rows, viewer, n - 1), rows[n - 1];
      if Involves(b, viewer) then Upsert(es, Partner(b, viewer), n - 1, UnreadBy(b, viewer)) else es
  }

  predicate Has(es: seq<Entry>, cp: int) {
    es != [] && (es[0].counterparty == cp || Has(es[1..], cp))
  }

  predicate OnePerCounterparty(es: seq<Entry>) {
    es != [] ==> !Has(es[1..], es[0].counterparty) && OnePerCounterparty(es[1..])
  }

  /** The group of `cp`, or an empty one. */
  function Find(es: seq<Entry>, cp: int): Entry {
    if es == [] then Entry(cp, 0, 0) else if es[0].counterparty == cp then es[0] else Find(es[1..], cp)
  }

  function TotalUnread(es: seq<Entry>): nat { if es == [] then 0 else es[0].unread + TotalUnread(es[1..]) }

  lemma {:induction false} UpsertIs(es: seq<Entry>, cp: int, id: nat, unread: nat, other: int)
    ensures Has(Upsert(es, cp, id, unread), other) <==> Has(es, other) || other == cp
    ensures other != cp ==> Find(Upsert(es, cp, id, unread), other) == Find(es, other)
    ensures Find(Upsert(es, cp, id, unread), cp)
         == Entry(cp, if id > Find(es, cp).lastId then id else Find(es, cp).lastId, Find(es, cp).unread + unread)
    ensures TotalUnread(Upsert(es, cp, id, unread)) == TotalUnread(es) + unread
  {
    if es != [] && es[0].counterparty != cp {
      UpsertIs(es[1..], cp, id, unread, other);
    }
  }

  lemma {:induction false} UpsertKeepsOne(es: seq<Entry>, cp: int, id: nat, unread: nat)
    requires OnePerCounterparty(es)
    ensures OnePerCounterparty(Upsert(es, cp, id, unread))
  {
    if es != [] && es[0].counterparty != cp {
      UpsertKeepsOne(es[1..], cp, id, unread);
      UpsertIs(es[1..], cp, id, unread, es[0].counterparty);
    }
  }

  function LastOf(xs: seq<nat>): nat { if xs == [] then 0 else xs[|xs| - 1] }

  function OneIf(c: bool): nat { if c then 1 else 0 }

  lemma RowCases(b: Balloon, viewer: int, cp: int)
    ensures Involves(b, viewer) && Partner(b, viewer) == cp <==> Matches(Between(viewer, cp), b)
    ensures Matches(UnreadFrom(viewer, cp), b) ==> Matches(Between(viewer, cp), b)
    ensures Matches(Between(viewer, cp), b) ==> UnreadBy(b, viewer) == OneIf(Matches(UnreadFrom(viewer, cp), b))
    ensures UnreadBy(b, viewer) == OneIf(Matches(UnreadTo(viewer), b))
    ensures !Involves(b, viewer) ==> UnreadBy(b, viewer) == 0
  {
  }

  lemma SelectStep(rows: seq<Balloon>, q: Query, n: nat)
    requires 0 < n <= |rows|
    ensures var xs := Select(rows, q, n - 1);
      && |Select(rows, q, n)| == |xs| + OneIf(Matches(q, rows[n - 1]))
      && LastOf(Select(rows, q, n)) == (if Matches(q, rows[n - 1]) then n - 1 else LastOf(xs))
      && LastOf(xs) <= n - 1
  {
    SelectIs(rows, q, n - 1);
    var xs := Select(rows, q, n - 1);
    assert xs != [] ==> LastOf(xs) in xs;
  }

  /** The group of a counterparty says what the conversation with them says. */
  lemma {:induction false} GroupsAgree(rows: seq<Balloon>, viewer: int, cp: int, n: nat)
    requires n <= |rows|
    ensures var es, talk := Groups(rows, viewer, n), Select(rows, Between(viewer, cp), n);
      && (Has(es, cp) <==> talk != [])
      && Find(es, cp) == Entry(cp, LastOf(talk), |Select(rows, UnreadFrom(viewer, cp), n)|)
  {
    hide Matches, Involves, Partner, UnreadBy, LastOf, Find, Has, Upsert;
    if n == 0 {
      NoGroups(cp);
    } else {
      GroupsAgree(rows, viewer, cp, n - 1);
      var b := rows[n - 1];
      UpsertIs(Groups(rows, viewer, n - 1), Partner(b, viewer), n - 1, UnreadBy(b, viewer), cp);
      RowCases(b, viewer, cp);
      SelectStep(rows, Between(viewer, cp), n);
      SelectStep(rows, UnreadFrom(viewer, cp), n);
    }
  }

  lemma NoGroups(cp: int)
    ensures !Has([], cp) && Find([], cp) == Entry(cp, 0, 0) && LastOf([]) == 0
  {
  }

  /** There is one group per counterparty, and together they count exactly the
      viewer's unread rows. */
  lemma {:induction false} GroupsCountOnce(rows: seq<Balloon>, viewer: int, n: nat)
    requires n <= |rows|
    ensures OnePerCounterparty(Groups(rows, viewer, n))
    ensures TotalUnread(Groups(rows, viewer, n)) == |Select(rows, UnreadTo(viewer), n)|
  {
    if n > 0 {
      hide Matches, Involves, Partner, UnreadBy;
      GroupsCountOnce(rows, viewer, n - 1);
      var b := rows[n - 1];
      RowCases(b, viewer, Partner(b, viewer));
      SelectStep(rows, UnreadTo(viewer), n);
      UpsertIs(Groups(rows, viewer, n - 1), Partner(b, viewer), n - 1, UnreadBy(b, viewer), 0);
      UpsertKeepsOne(Groups(rows, viewer, n - 1), Partner(b, viewer), n - 1, UnreadBy(b, viewer));
    }
  }

  /** `es` with the unread count of `cp` set to zero. */
  function Zeroed(es: seq<Entry>, cp: int): seq<Entry> {
    if es == [] then []
    else [if es[0].counterparty == cp then es[0].(unread := 0) else es[0]] + Zeroed(es[1..], cp)
  }

  lemma {:induction false} ZeroedUpsert(es: seq<Entry>, cp: int, id: nat, unread: nat, cleared: int)
    ensures Zeroed(Upsert(es, cp, id, unread), cleared)
         == Upsert(Zeroed(es, cleared), cp, id, if cp == cleared then 0 else unread)
  {
    var u := if cp == cleared then 0 else unread;
    if es != [] {
      var z := Zeroed(es, cleared);
      assert z[1..] == Zeroed(es[1..], cleared);
      if es[0].counterparty == cp {
        assert Upsert(es, cp, id, unread)[1..] == es[1..];
      } else {
        ZeroedUpsert(es[1..], cp, id, unread, cleared);
        assert Upsert(es, cp, id, unread)[1..] == Upsert(es[1..], cp, id, unread);
      }
    }
  }

  /** Opening a thread sets that counterparty's count to zero and leaves every
      other group, its last message included, as it was. */
  lemma {:induction false} MarkingZeroesOne(rows: seq<Balloon>, viewer: int, cp: int, n: nat)
    requires n <= |rows|
    ensures Groups(MarkWhere(rows, UnreadFrom(viewer, cp)), viewer, n) == Zeroed(Groups(rows, viewer, n), cp)
  {
    if n > 0 {
      MarkingZeroesOne(rows, viewer, cp, n - 1);
      var b := rows[n - 1];
      ZeroedUpsert(Groups(rows, viewer, n - 1), Partner(b, viewer), n - 1, UnreadBy(b, viewer), cp);
    }
  }

  /** Nobody else's groups change, the counterparty's own included. */
  lemma {:induction false} MarkingIsPrivate(rows: seq<Balloon>, viewer: int, cp: int, other: int, n: nat)
    requires n <= |rows| && other != viewer
    ensures Groups(MarkWhere(rows, UnreadFrom(viewer, cp)), other, n) == Groups(rows, other, n)
  {
    if n > 0 {
      MarkingIsPrivate(rows, viewer, cp, other, n - 1);
    }
  }

  // --------------------------------------------------------- the inbox lines

  /** A line of the inbox, as `ListCounterpartiesFor` returns it. */
  datatype Line = Line(userId: int, handle: string, lastBody: string, lastFromMe: bool, lastAt: int, unread: nat)

  ghost predicate InRange(es: seq<Entry>, n: nat) { forall e :: e in es ==> e.lastId < n }

  /** The join with `users` drops a counterparty that has no row there. */
  function Lines(rows: seq<Balloon>, users: map<int, string>, viewer: int, es: seq<Entry>): seq<Line>
    requires InRange(es, |rows|)
  {
    if es == [] then []
    else
      var e, rest := es[0], Lines(rows, users, viewer, es[1..]);
      var b := rows[e.lastId];
      if e.counterparty in users then
        [Line(e.counterparty, users[e.counterparty], b.body, b.from == viewer, b.createdAt, e.unread)] + rest
      else rest
  }

  /** Unread conversations first, then the most recent. */
  predicate NoLater(x: Line, y: Line) {
    if (x.unread > 0) == (y.unread > 0) then x.lastAt >= y.lastAt else x.unread > 0
  }

  function Clip(limit: int): nat { if limit <= 0 then 50 else limit }

  function Ranked(rows: seq<Balloon>, users: map<int, string>, viewer: int): seq<Line> {
    GroupsInRange(rows, viewer);
    Sorting.Sort(Lines(rows, users, viewer, Groups(rows, viewer, |rows|)), NoLater)
  }

  /** `ListCounterpartiesFor` */
  function Counterparties(rows: seq<Balloon>, users: map<int, string>, viewer: int, limit: int): seq<Line> {
    var lines := Ranked(rows, users, viewer);
    if |lines| <= Clip(limit) then lines else lines[..Clip(limit)]
  }

  lemma {:induction false} FindIs(es: seq<Entry>, e: Entry)
    requires OnePerCounterparty(es) && e in es
    ensures Has(es, e.counterparty) && Find(es, e.counterparty) == e
  {
    if e != es[0] {
      FindIs(es[1..], e);
    }
  }

  lemma GroupsInRange(rows: seq<Balloon>, viewer: int)
    ensures InRange(Groups(rows, viewer, |rows|), |rows|)
  {
    var es := Groups(rows, viewer, |rows|);
    GroupsCountOnce(rows, viewer, |rows|);
    forall e | e in es ensures e.lastId < |rows| {
      FindIs(es, e);
      GroupsAgree(rows, viewer, e.counterparty, |rows|);
      SelectIs(rows, Between(viewer, e.counterparty), |rows|);
      assert e.lastId in Select(rows, Between(viewer, e.counterparty), |rows|);
    }
  }

  predicate HasLine(xs: seq<Line>, user: int) {
    xs != [] && (xs[0].userId == user || HasLine(xs[1..], user))
  }

  predicate OneLineEach(xs: seq<Line>) {
    xs != [] ==> !HasLine(xs[1..], xs[0].userId) && OneLineEach(xs[1..])
  }

  function SumUnread(xs: seq<Line>): nat { if xs == [] then 0 else xs[0].unread + SumUnread(xs[1..]) }

  ghost predicate AllKnown(es: seq<Entry>, users: map<int, string>) {
    forall e :: e in es ==> e.counterparty in users
  }

  lemma {:induction false} LinesOfGroups(rows: seq<Balloon>, users: map<int, string>, viewer: int, es: seq<Entry>,
                                         user: int)
    requires InRange(es, |rows|) && OnePerCounterparty(es)
    ensures var xs := Lines(rows, users, viewer, es);
      && (HasLine(xs, user) <==> Has(es, user) && user in users)
      && OneLineEach(xs) && |xs| <= |es|
      && (AllKnown(es, users) ==> SumUnread(xs) == TotalUnread(es))
  {
    if es != [] {
      LinesOfGroups(rows, users, viewer, es[1..], user);
      LinesOfGroups(rows, users, viewer, es[1..], es[0].counterparty);
    }
  }

  lemma {:induction false} InsertLine(x: Line, xs: seq<Line>, user: int)
    ensures var r := Sorting.Insert(x, xs, NoLater);
      && (HasLine(r, user) <==> x.userId == user || HasLine(xs, user))
      && SumUnread(r) == x.unread + SumUnread(xs) && |r| == |xs| + 1
      && (OneLineEach(xs) && !HasLine(xs, x.userId) ==> OneLineEach(r))
    decreases |xs|
  {
    if xs != [] && !NoLater(x, xs[0]) {
      InsertLine(x, xs[1..], user);
      InsertLine(x, xs[1..], xs[0].userId);
    }
  }

  lemma {:induction false} SortLines(xs: seq<Line>, user: int)
    ensures var r := Sorting.Sort(xs, NoLater);
      && (HasLine(r, user) <==> HasLine(xs, user))
      && SumUnread(r) == SumUnread(xs) && |r| == |xs|
      && (OneLineEach(xs) ==> OneLineEach(r))
  {
    if xs != [] {
      SortLines(xs[1..], user);
      SortLines(xs[1..], xs[0].userId);
      InsertLine(xs[0], Sorting.Sort(xs[1..], NoLater), user);
    }
  }

  lemma {:induction false} HasLineIs(xs: seq<Line>, user: int)
    ensures HasLine(xs, user) <==> exists x :: x in xs && x.userId == user
  {
    if xs != [] {
      HasLineIs(xs[1..], user);
      assert xs == [xs[0]] + xs[1..];
    }
  }

  lemma {:induction false} OneLineIs(xs: seq<Line>, i: nat, j: nat)
    requires OneLineEach(xs) && i < j < |xs|
    ensures xs[i].userId != xs[j].userId
  {
    if i == 0 {
      HasLineIs(xs[1..], xs[0].userId);
      assert xs[j] in xs[1..];
    } else {
      OneLineIs(xs[1..], i - 1, j - 1);
    }
  }

  /** What the conversation with `x.userId` itself says a line should be. */
  predicate Agrees(rows: seq<Balloon>, users: map<int, string>, viewer: int, x: Line) {
    var talk := SelectAll(rows, Between(viewer, x.userId));
    talk != [] && x.userId in users && LastOf(talk) < |rows| &&
    var last := rows[LastOf(talk)];
    x == Line(x.userId, users[x.userId], last.body, last.from == viewer, last.createdAt,
              |SelectAll(rows, UnreadFrom(viewer, x.userId))|)
  }

  lemma {:induction false} LinesAgree(rows: seq<Balloon>, users: map<int, string>, viewer: int, es: seq<Entry>, x: Line)
    requires InRange(es, |rows|) && x in Lines(rows, users, viewer, es)
    requires forall e :: e in es ==> Has(Groups(rows, viewer, |rows|), e.counterparty)
                                     && Find(Groups(rows, viewer, |rows|), e.counterparty) == e
    ensures Agrees(rows, users, viewer, x)
  {
    var e := es[0];
    if e.counterparty in users && x == Lines(rows, users, viewer, es)[0] {
      GroupsAgree(rows, viewer, e.counterparty, |rows|);
    } else {
      LinesAgree(rows, users, viewer, es[1..], x);
    }
  }

  lemma NoLaterOrders()
    ensures Sorting.TotalPreorder(NoLater)
  {
  }

  lemma RankedLines(rows: seq<Balloon>, users: map<int, string>, viewer: int)
    ensures var out := Ranked(rows, users, viewer);
      && Sorting.Sorted(out, NoLater) && OneLineEach(out) && |out| <= |Groups(rows, viewer, |rows|)|
      && (forall x :: x in out ==> Agrees(rows, users, viewer, x))
      && (forall cp :: HasLine(out, cp) <==> cp in users && SelectAll(rows, Between(viewer, cp)) != [])
      && (AllKnown(Groups(rows, viewer, |rows|), users) ==> SumUnread(out) == |SelectAll(rows, UnreadTo(viewer))|)
  {
    var es := Groups(rows, viewer, |rows|);
    GroupsInRange(rows, viewer);
    GroupsCountOnce(rows, viewer, |rows|);
    var xs := Lines(rows, users, viewer, es);
    NoLaterOrders();
    Sorting.SortSorts(xs, NoLater);
    Sorting.SameElements(xs, Sorting.Sort(xs, NoLater));
    forall e | e in es ensures Has(es, e.counterparty) && Find(es, e.counterparty) == e {
      FindIs(es, e);
    }
    forall x | x in xs ensures Agrees(rows, users, viewer, x) {
      LinesAgree(rows, users, viewer, es, x);
    }
    forall cp
      ensures HasLine(Sorting.Sort(xs, NoLater), cp) <==> cp in users && SelectAll(rows, Between(viewer, cp)) != []
    {
      LinesOfGroups(rows, users, viewer, es, cp);
      SortLines(xs, cp);
      GroupsAgree(rows, viewer, cp, |rows|);
    }
    LinesOfGroups(rows, users, viewer, es, 0);
    SortLines(xs, 0);
  }

  /** A line that agrees with its conversation is ranked: it is the one of its
      counterparty. */
  lemma AgreeingIsRanked(rows: seq<Balloon>, users: map<int, string>, viewer: int, x: Line)
    requires Agrees(rows, users, viewer, x)
    ensures x in Ranked(rows, users, viewer)
  {
    hide Ranked, SelectAll;
    RankedLines(rows, users, viewer);
    HasLineIs(Ranked(rows, users, viewer), x.userId);
    var y :| y in Ranked(rows, users, viewer) && y.userId == x.userId;
    assert Agrees(rows, users, viewer, y);
  }

  /** `x` may be shown before `y`: what is unread first, then what is later. */
  predicate ShownBefore(x: Line, y: Line) {
    && (y.unread > 0 ==> x.unread > 0)
    && ((x.unread > 0 && y.unread > 0) || (x.unread == 0 && y.unread == 0) ==> x.lastAt >= y.lastAt)
  }

  lemma RankIsShown()
    ensures forall x, y :: ShownBefore(x, y) <==> NoLater(x, y)
  {
  }

  /** The inbox agrees with the conversations.  Every line names a counterparty
      of its own, its last message is the newest row between the two and its
      count the unread rows from them; unread conversations come first.  A line
      that is left out comes after all that are shown, and then the limit is
      reached.  When the limit cuts nothing there is a line for every known
      counterparty, and when all are known the counts add up to all that is
      unread. */
  lemma InboxAgrees(rows: seq<Balloon>, users: map<int, string>, viewer: int, limit: int)
    ensures var out := Counterparties(rows, users, viewer, limit);
      var n := if limit <= 0 then 50 else limit;
      && |out| <= n
      && (forall i, j :: 0 <= i < j < |out| ==> out[i].userId != out[j].userId && ShownBefore(out[i], out[j]))
      && (forall x :: x in out ==> Agrees(rows, users, viewer, x))
      && (forall x :: Agrees(rows, users, viewer, x) && x !in out ==>
            |out| == n && forall y :: y in out ==> ShownBefore(y, x))
      && (|Groups(rows, viewer, |rows|)| <= n ==>
            && (forall cp :: cp in users && SelectAll(rows, Between(viewer, cp)) != [] ==>
                  exists x :: x in out && x.userId == cp)
            && (AllKnown(Groups(rows, viewer, |rows|), users) ==>
                  SumUnread(out) == |SelectAll(rows, UnreadTo(viewer))|))
  {
    var lines, out := Ranked(rows, users, viewer), Counterparties(rows, users, viewer, limit);
    RankedLines(rows, users, viewer);
    RankIsShown();
    hide ShownBefore, NoLater;
    assert forall x :: x in out ==> x in lines;
    forall x | Agrees(rows, users, viewer, x) && x !in out
      ensures |out| == Clip(limit) && forall y :: y in out ==> ShownBefore(y, x)
    {
      AgreeingIsRanked(rows, users, viewer, x);
      Sorting.BeyondTheCut(lines, NoLater, |out|, x);
    }
    forall i: nat, j: nat | i < j < |out| ensures out[i].userId != out[j].userId {
      OneLineIs(lines, i, j);
    }
    if |Groups(rows, viewer, |rows|)| <= Clip(limit) {
      assert out == lines;
      forall cp ensures HasLine(out, cp) <==> exists x :: x in out && x.userId == cp {
        HasLineIs(out, cp);
      }
    }
  }

  // ----------------------------------------------------------- the thread view

  function ClipTalk(limit: int): nat { if limit <= 0 then 200 else limit }

  /** `ListConversation` */
  function Conversation(rows: seq<Balloon>, viewer: int, counterparty: int, limit: int): seq<nat> {
    var talk := SelectAll(rows, Between(viewer, counterparty));
    if |talk| <= ClipTalk(limit) then talk else talk[..ClipTalk(limit)]
  }

  /** What the limit clips.  The comment above the function says the oldest rows;
      but the oldest row is always listed, and the newest exactly when the whole
      conversation is. */
  lemma NewestIsListedExactly(rows: seq<Balloon>, viewer: int, counterparty: int, limit: int)
    requires SelectAll(rows, Between(viewer, counterparty)) != []
    ensures var talk, n := SelectAll(rows, Between(viewer, counterparty)), if limit <= 0 then 200 else limit;
      var out := Conversation(rows, viewer, counterparty, limit);
      && out <= talk && |out| == (if |talk| <= n then |talk| else n)
      && talk[0] in out
      && (LastOf(talk) in out <==> |talk| <= n)
  {
    var talk, out := SelectAll(rows, Between(viewer, counterparty)), Conversation(rows, viewer, counterparty, limit);
    SelectIs(rows, Between(viewer, counterparty), |rows|);
    assert out[0] == talk[0];
    assert LastOf(talk) == talk[|talk| - 1];
    if |talk| > ClipTalk(limit) {
      forall i | 0 <= i < |out| ensures out[i] != LastOf(talk) {
        assert out[i] == talk[i] < talk[|talk| - 1];
      }
    }
  }

  /** The thread screen passes 200: of a longer conversation it never lists the
      newest row. */
  lemma ScreenClipsNewest(rows: seq<Balloon>, viewer: int, counterparty: int)
    requires |SelectAll(rows, Between(viewer, counterparty))| > 200
    ensures var talk := SelectAll(rows, Between(viewer, counterparty));
      LastOf(talk) !in Conversation(rows, viewer, counterparty, 200)
  {
    hide Conversation, SelectAll;
    NewestIsListedExactly(rows, viewer, counterparty, 200);
  }

  /** With two rows and a limit of one, the older is kept and the newer clipped; for
      the limit of the screen see `ScreenClipsNewest`. */
  lemma NewestIsClipped(older: Balloon, newer: Balloon)
    requires Matches(Between(older.from, older.to), newer)
    ensures Conversation([older, newer], older.from, older.to, 1) == [0]
  {
    var rows, q := [older, newer], Between(older.from, older.to);
    assert Select(rows, q, 0) == [];
    assert Select(rows, q, 1) == [0];
    assert Select(rows, q, 2) == [0, 1];
  }

  // -------------------------------------------------------------- the table

  class BalloonTable {
    var rows: seq<Balloon>

    constructor ()
      ensures rows == []
    {
      rows := [];
    }

    /** The insert, and the read of the new row, which can fail when the row is
        already committed. */
    method Insert(from: int, to: int, body: string, now: int, fails: bool, rereadFails: bool) returns (id: Option<nat>)
      modifies this
      ensures rows == if fails then old(rows) else old(rows) + [Balloon(from, to, body, false, now)]
      ensures id == if fails || rereadFails then None else Some(|old(rows)|)
    {
      if fails {
        return None;
      }
      var newId := |rows|;
      rows := rows + [Balloon(from, to, body, false, now)];
      return if rereadFails then None else Some(newId);
    }

    /** The scan loop shared by the list queries, with the query's `LIMIT`. */
    method Scan(q: Query, limit: nat) returns (out: seq<nat>)
      ensures var found := SelectAll(rows, q);
        out == if |found| <= limit then found else found[..limit]
    {
      out := [];
      var i := 0;
      while i < |rows| && |out| < limit
        invariant i <= |rows| && |out| <= limit && out == Select(rows, q, i)
      {
        if Matches(q, rows[i]) {
          out := out + [i];
        }
        i := i + 1;
      }
      SelectGrows(rows, q, i, |rows|);
    }

    method ListConversation(viewer: int, counterparty: int, limit: int) returns (out: seq<nat>)
      ensures out == Conversation(rows, viewer, counterparty, limit)
    {
      var n: nat := if limit <= 0 then 200 else limit;
      out := Scan(Between(viewer, counterparty), n);
    }

    method ListUnreadFor(user: int) returns (out: seq<nat>)
      ensures out == SelectAll(rows, UnreadTo(user))
    {
      SelectGrows(rows, UnreadTo(user), 0, |rows|);
      out := Scan(UnreadTo(user), |rows|);
    }

    method MarkRead(id: nat, fails: bool) returns (ok: bool)
      modifies this
      ensures ok == !fails
      ensures rows == if fails then old(rows) else MarkOne(old(rows), id)
    {
      if !fails && id < |rows| {
        rows := rows[id := rows[id].(read := true)];
      }
      ok := !fails;
    }

    method MarkConversationRead(viewer: int, counterparty: int, fails: bool) returns (ok: bool)
      modifies this
      ensures ok == !fails
      ensures rows == if fails then old(rows) else MarkWhere(old(rows), UnreadFrom(viewer, counterparty))
    {
      if fails {
        return false;
      }
      var i := 0;
      while i < |rows|
        invariant i <= |rows| == |old(rows)|
        invariant forall k :: i <= k < |rows| ==> rows[k] == old(rows)[k]
        invariant forall k :: 0 <= k < i ==> rows[k] == MarkWhere(old(rows), UnreadFrom(viewer, counterparty))[k]
      {
        if Matches(UnreadFrom(viewer, counterparty), rows[i]) {
          rows := rows[i := rows[i].(read := true)];
        }
        i := i + 1;
      }
      ok := true;
    }
  }

  /** Scanning further only appends. */
  lemma {:induction false} SelectGrows(rows: seq<Balloon>, q: Query, i: nat, n: nat)
    requires i <= n <= |rows|
    ensures Select(rows, q, i) <= Select(rows, q, n)
    ensures |Select(rows, q, n)| <= |Select(rows, q, i)| + n - i
  {
    if i < n {
      SelectGrows(rows, q, i, n - 1);
    }
  }
}
