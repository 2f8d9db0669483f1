/** What holds over whole runs of the article and push store, with any statement
    of any operation failing. */
module ForumRuns {
  import opened Wrappers
  import opened Records
  import opened Forum

  datatype Attempt = Attempt(op: Op, fault: Fault)

  function After(t: Tables, xs: seq<Attempt>): Tables {
    if xs == [] then t
    else Exec(After(t, xs[..|xs| - 1]), xs[|xs| - 1].op, xs[|xs| - 1].fault)
  }

  /** An operation either has its effect or changes nothing. */
  lemma AllOrNothing(t: Tables, op: Op, fault: Fault)
    ensures Exec(t, op, fault) == t || (Failure(t, op, NoFault).None? && Exec(t, op, fault) == Effect(t, op))
  {
    GetsThrough(t, op, fault);
  }

  /** The operations of a run that took effect, in order: those that returned no
      error, and those that failed only to read back what they had committed. */
  function Committed(t: Tables, xs: seq<Attempt>): seq<Attempt>
    decreases |xs|
  {
    if xs == [] then []
    else
      var before, x := After(t, xs[..|xs| - 1]), xs[|xs| - 1];
      Committed(t, xs[..|xs| - 1])
      + if Failure(before, x.op, x.fault).None? || (x.fault == AtReread && Failure(before, x.op, NoFault).None?)
        then [Attempt(x.op, NoFault)] else []
  }

  /** No attempt of the run meets a fault or is refused. */
  predicate AllGoThrough(t: Tables, xs: seq<Attempt>)
    decreases |xs|
  {
    xs != [] ==>
      && AllGoThrough(t, xs[..|xs| - 1])
      && xs[|xs| - 1].fault == NoFault && Failure(After(t, xs[..|xs| - 1]), xs[|xs| - 1].op, NoFault).None?
  }

  /** Faults and refusals only take operations out of a run: whatever fails, the
      tables end as after the operations that took effect, made one after the
      other with nothing failing. */
  lemma {:induction false} FaultsOnlyDropOperations(t: Tables, xs: seq<Attempt>)
    ensures After(t, Committed(t, xs)) == After(t, xs) && AllGoThrough(t, Committed(t, xs))
    decreases |xs|
  {
    if xs != [] {
      hide Failure, Effect;
      var init, x := xs[..|xs| - 1], xs[|xs| - 1];
      var done := Committed(t, init);
      FaultsOnlyDropOperations(t, init);
      GetsThrough(After(t, init), x.op, x.fault);
      assert (done + [Attempt(x.op, NoFault)])[..|done|] == done;
      assert done + [] == done;
    }
  }

  lemma {:induction false} RunKeepsConsistent(t: Tables, xs: seq<Attempt>)
    requires Consistent(t)
    ensures Consistent(After(t, xs))
    decreases |xs|
  {
    if xs != [] {
      RunKeepsConsistent(t, xs[..|xs| - 1]);
      ExecKeepsConsistent(After(t, xs[..|xs| - 1]), xs[|xs| - 1].op, xs[|xs| - 1].fault);
    }
  }

  lemma EmptyIsConsistent()
    ensures Consistent(EMPTY)
  {
  }

  lemma {:induction false} FindIsIn(rows: seq<Article>, lo: int, hi: int, a: Article)
    requires ArticleIds(rows, lo, hi)
    ensures a in rows <==> FindArticle(rows, a.id) == Some(a)
  {
    if rows != [] {
      FindIsIn(rows[1..], rows[0].id + 1, hi, a);
      ArticleIdsLower(rows[1..], rows[0].id + 1, hi, a.id);
      assert rows == [rows[0]] + rows[1..];
    }
  }

  lemma {:induction false} FindPushIsIn(rows: seq<PushRow>, lo: int, hi: int, p: PushRow)
    requires PushIds(rows, lo, hi)
    ensures p in rows <==> FindPush(rows, p.id) == Some(p)
  {
    if rows != [] {
      FindPushIsIn(rows[1..], rows[0].id + 1, hi, p);
      PushIdsLower(rows[1..], rows[0].id + 1, hi, p.id);
      assert rows == [rows[0]] + rows[1..];
    }
  }

  /** How many pushes of a kind an article has. */
  function CountKind(rows: seq<PushRow>, articleId: int, kind: PushKind): nat {
    if rows == [] then 0
    else
      (if rows[0].articleId == articleId && rows[0].kind == kind then 1 else 0) +
      CountKind(rows[1..], articleId, kind)
  }

  lemma {:induction false} ScoreCounts(rows: seq<PushRow>, articleId: int)
    ensures ScoreOf(rows, articleId) == CountKind(rows, articleId, Push) - CountKind(rows, articleId, Boo)
  {
    if rows != [] {
      ScoreCounts(rows[1..], articleId);
    }
  }

  /** In every reachable state an article's cached score is the number of its
      surviving pushes minus the number of its surviving boos, and no push
      outlives its article. */
  lemma ScoreCacheIsExact(xs: seq<Attempt>)
    ensures var t := After(EMPTY, xs);
      && (forall a :: a in t.articles ==>
            a.recommendScore == CountKind(t.pushes, a.id, Push) - CountKind(t.pushes, a.id, Boo))
      && (forall p :: p in t.pushes ==> exists a :: a in t.articles && a.id == p.articleId)
  {
    hide FindArticle, FindPush, ScoreOf, CountKind, ArticleIds, PushIds, After;
    var t := After(EMPTY, xs);
    EmptyIsConsistent();
    RunKeepsConsistent(EMPTY, xs);
    forall a | a in t.articles
      ensures a.recommendScore == CountKind(t.pushes, a.id, Push) - CountKind(t.pushes, a.id, Boo)
    {
      FindIsIn(t.articles, 1, t.nextArticle, a);
      ScoreCounts(t.pushes, a.id);
      assert ScoreIs(t, a.id);
    }
    forall p | p in t.pushes ensures exists a :: a in t.articles && a.id == p.articleId {
      FindPushIsIn(t.pushes, 1, t.nextPush, p);
      var a := FindArticle(t.articles, p.articleId);
      ArticleIdsLower(t.articles, 1, t.nextArticle, p.articleId);
      FindIsIn(t.articles, 1, t.nextArticle, a.value);
    }
  }

  // ------------------------------------------------------------ reverted once

  /** A push id that has been given out and is gone. */
  predicate Gone(t: Tables, id: int) { id < t.nextPush && FindPush(t.pushes, id).None? }

  lemma StaysGone(t: Tables, op: Op, fault: Fault, id: int)
    requires Consistent(t) && Gone(t, id)
    ensures Gone(Exec(t, op, fault), id)
  {
    hide FindArticle, FindPush;
    PushAfter(t, op, id);
  }

  lemma {:induction false} StaysGoneOverRun(t: Tables, xs: seq<Attempt>, id: int)
    requires Consistent(t) && Gone(t, id)
    ensures Gone(After(t, xs), id)
    decreases |xs|
  {
    hide Exec;
    if xs != [] {
      StaysGoneOverRun(t, xs[..|xs| - 1], id);
      RunKeepsConsistent(t, xs[..|xs| - 1]);
      StaysGone(After(t, xs[..|xs| - 1]), xs[|xs| - 1].op, xs[|xs| - 1].fault, id);
    }
  }

  /** A push is reverted at most once: after a deletion that went through, every
      later deletion of the same id fails and changes nothing, whatever was done
      in between. */
  lemma RevertedOnce(t: Tables, id: int, who: int, role: Role, fault: Fault, xs: seq<Attempt>,
                     again: int, againRole: Role, againFault: Fault)
    requires Consistent(t) && Failure(t, DeletePush(id, who, role), fault).None?
    ensures var u := After(Exec(t, DeletePush(id, who, role), fault), xs);
      Failure(u, DeletePush(id, again, againRole), againFault).Some?
      && Exec(u, DeletePush(id, again, againRole), againFault) == u
  {
    hide FindArticle;
    var t' := Exec(t, DeletePush(id, who, role), fault);
    PushAfter(t, DeletePush(id, who, role), id);
    PushIdsLower(t.pushes, 1, t.nextPush, id);
    ExecKeepsConsistent(t, DeletePush(id, who, role), fault);
    StaysGoneOverRun(t', xs, id);
  }

  /** A push disappears only by its author, by the author of its article, or by
      a moderator; an unknown role has no say. */
  lemma RemovedByRight(t: Tables, op: Op, fault: Fault, id: int)
    requires Consistent(t) && FindPush(t.pushes, id).Some? && FindPush(Exec(t, op, fault).pushes, id).None?
    ensures var p := FindPush(t.pushes, id).value; var a := FindArticle(t.articles, p.articleId);
      || (op.DeletePush? && op.pushId == id && (op.requester == p.userId || op.role.Mod? || op.role.Admin?))
      || (op.DeleteArticle? && op.articleId == p.articleId && a.Some?
          && (op.requester == a.value.authorId || op.role.Mod? || op.role.Admin?))
  {
    hide FindArticle, FindPush;
    AllOrNothing(t, op, fault);
    PushAfter(t, op, id);
  }

  predicate IsModerator(r: Role) { r.Mod? || r.Admin? }

  /** Who may do what, and to what, when no statement fails. */
  predicate Permitted(t: Tables, op: Op) {
    match op
    case CreatePush(articleId, _, _, kind, _, _) =>
      var a := FindArticle(t.articles, articleId);
      !kind.OtherKind? && a.Some? && !a.value.commentsMode.Locked? && (a.value.commentsMode.ArrowsOnly? ==> kind.Arrow?)
    case DeletePush(id, requester, role) =>
      var p := FindPush(t.pushes, id);
      p.Some? && (p.value.userId == requester || IsModerator(role)) && !p.value.kind.OtherKind?
    case CreateArticle(_, _, _, _, _, _) => true
    case DeleteArticle(id, requester, role) =>
      var a := FindArticle(t.articles, id);
      a.Some? && (a.value.authorId == requester || IsModerator(role))
    case UpdateArticle(id, requester, role, _, _, _) =>
      var a := FindArticle(t.articles, id);
      a.Some? && (a.value.authorId == requester || IsModerator(role))
    case SetPinned(id, _, role, _, _) => FindArticle(t.articles, id).Some? && IsModerator(role)
    case SetCommentsMode(id, _, role, mode) =>
      FindArticle(t.articles, id).Some? && IsModerator(role) && !mode.OtherMode?
  }

  /** An operation changes anything only when it is permitted, and a permitted
      one that meets no fault goes through. */
  lemma GoesThroughExactly(t: Tables, op: Op, fault: Fault)
    ensures Failure(t, op, NoFault).None? <==> Permitted(t, op)
    ensures Exec(t, op, fault) != t ==> Permitted(t, op)
    ensures Permitted(t, op) && fault == NoFault ==> Exec(t, op, fault) == Effect(t, op)
  {
    hide FindArticle, FindPush, Effect;
    GetsThrough(t, op, fault);
  }

  /** What an operation may do to an article that exists: its board, author and
      creation time never change, its text only by its author or a moderator, its
      pin and its comments mode only by a moderator, its score only with a push;
      and it disappears only by its author or a moderator. */
  lemma ArticleChangedByRight(t: Tables, op: Op, fault: Fault, id: int)
    requires Consistent(t) && FindArticle(t.articles, id).Some?
    ensures var a, b := FindArticle(t.articles, id).value, FindArticle(Exec(t, op, fault).articles, id);
      && (b.None? ==> op.DeleteArticle? && op.articleId == id && (op.requester == a.authorId || IsModerator(op.role)))
      && (b.Some? ==> ChangedByRight(a, b.value, op))
  {
    hide FindArticle, FindPush;
    GoesThroughExactly(t, op, fault);
    AllOrNothing(t, op, fault);
    ArticleAfter(t, op, id);
    ArticleIdsLower(t.articles, 1, t.nextArticle, id);
  }

  predicate ChangedByRight(a: Article, b: Article, op: Op) {
    && b == a.(title := b.title, body := b.body, updatedAt := b.updatedAt, pinnedAt := b.pinnedAt,
               commentsMode := b.commentsMode, recommendScore := b.recommendScore)
    && (b.title != a.title || b.body != a.body || b.updatedAt != a.updatedAt ==>
          && op.UpdateArticle? && op.articleId == a.id && (op.requester == a.authorId || IsModerator(op.role))
          && b.title == op.newTitle && b.body == op.newBody && b.updatedAt == Some(op.editedAt))
    && (b.pinnedAt != a.pinnedAt ==>
          op.SetPinned? && op.articleId == a.id && IsModerator(op.role) && b.pinnedAt.Some? == op.pinned)
    && (b.commentsMode != a.commentsMode ==>
          op.SetCommentsMode? && op.articleId == a.id && IsModerator(op.role) && b.commentsMode == op.mode)
    && (b.recommendScore != a.recommendScore ==> op.CreatePush? || op.DeletePush?)
  }

  // ---------------------------------------------------------- closed comments

  predicate IsClosed(t: Tables, articleId: int) {
    var a := FindArticle(t.articles, articleId);
    a.Some? && (a.value.commentsMode.Locked? || a.value.commentsMode.ArrowsOnly?)
  }

  predicate IsLocked(t: Tables, articleId: int) {
    var a := FindArticle(t.articles, articleId);
    a.Some? && a.value.commentsMode.Locked?
  }

  /** The comments of the article are closed before and after every attempt. */
  predicate StaysClosed(t: Tables, xs: seq<Attempt>, articleId: int)
    decreases |xs|
  {
    IsClosed(After(t, xs), articleId) && (xs != [] ==> StaysClosed(t, xs[..|xs| - 1], articleId))
  }

  predicate StaysLocked(t: Tables, xs: seq<Attempt>, articleId: int)
    decreases |xs|
  {
    IsLocked(After(t, xs), articleId) && (xs != [] ==> StaysLocked(t, xs[..|xs| - 1], articleId))
  }

  /** The summed deltas of the article's pushes in `was` that are not in `rows`. */
  function GoneDelta(was: seq<PushRow>, rows: seq<PushRow>, articleId: int): int {
    if was == [] then 0
    else (if was[0].articleId == articleId && FindPush(rows, was[0].id).None? then Delta(was[0].kind) else 0)
         + GoneDelta(was[1..], rows, articleId)
  }

  lemma {:induction false} NothingGone(was: seq<PushRow>, rows: seq<PushRow>, articleId: int)
    requires forall p :: p in was ==> FindPush(rows, p.id).Some?
    ensures GoneDelta(was, rows, articleId) == 0
  {
    if was != [] {
      NothingGone(was[1..], rows, articleId);
    }
  }

  /** The article's pushes in `was` are the same in both tables. */
  ghost predicate SameGone(was: seq<PushRow>, rows: seq<PushRow>, rows': seq<PushRow>, articleId: int) {
    forall p :: p in was && p.articleId == articleId ==> (FindPush(rows, p.id).None? <==> FindPush(rows', p.id).None?)
  }

  lemma {:induction false} GoneUnchanged(was: seq<PushRow>, rows: seq<PushRow>, rows': seq<PushRow>, articleId: int)
    requires SameGone(was, rows, rows', articleId)
    ensures GoneDelta(was, rows', articleId) == GoneDelta(was, rows, articleId)
  {
    if was != [] {
      GoneUnchanged(was[1..], rows, rows', articleId);
    }
  }

  /** One push has gone. */
  ghost predicate OneGone(rows: seq<PushRow>, rows': seq<PushRow>, id: int) {
    FindPush(rows, id).Some? &&
    forall other: int :: FindPush(rows', other) == if other == id then None else FindPush(rows, other)
  }

  lemma {:induction false} GoneGrows(was: seq<PushRow>, lo: int, hi: int, rows: seq<PushRow>, rows': seq<PushRow>,
                                     id: int, articleId: int)
    requires PushIds(was, lo, hi) && OneGone(rows, rows', id)
    ensures GoneDelta(was, rows', articleId) == GoneDelta(was, rows, articleId) + Share(FindPush(was, id), articleId)
  {
    hide OneGone;
    if was != [] {
      GoneGrows(was[1..], was[0].id + 1, hi, rows, rows', id, articleId);
      PushIdsLower(was[1..], was[0].id + 1, hi, id);
      OneGoneAt(rows, rows', id, was[0].id);
    }
  }

  lemma OneGoneAt(rows: seq<PushRow>, rows': seq<PushRow>, id: int, other: int)
    requires OneGone(rows, rows', id)
    ensures FindPush(rows', other) == if other == id then None else FindPush(rows, other)
    ensures FindPush(rows, id).Some?
  {
  }

  /** How the tables `u` relate to the tables `t` at the start of a segment in
      which the article's comments have been closed. */
  ghost predicate ClosedSince(t: Tables, u: Tables, articleId: int) {
    && Consistent(t) && Consistent(u) && t.nextPush <= u.nextPush
    && (forall id: int :: OldOrArrow(t, u, articleId, id))
    && ScoreOf(u.pushes, articleId) == ScoreOf(t.pushes, articleId) - GoneDelta(t.pushes, u.pushes, articleId)
  }

  /** A surviving push is unchanged, or is a later one that is not the article's
      or is an arrow. */
  predicate OldOrArrow(t: Tables, u: Tables, articleId: int, id: int) {
    var p := FindPush(u.pushes, id);
    p.Some? ==>
      if id < t.nextPush then p == FindPush(t.pushes, id)
      else p.value.articleId == articleId ==> p.value.kind == Arrow
  }

  lemma ClosedStart(t: Tables, articleId: int)
    requires Consistent(t)
    ensures ClosedSince(t, t, articleId)
  {
    hide FindArticle, ScoreOf, GoneDelta;
    forall id: int ensures OldOrArrow(t, t, articleId, id) {
      PushIdsLower(t.pushes, 1, t.nextPush, id);
    }
    forall p | p in t.pushes ensures FindPush(t.pushes, p.id).Some? {
      FindPushIsIn(t.pushes, 1, t.nextPush, p);
    }
    NothingGone(t.pushes, t.pushes, articleId);
  }

  lemma StillOldOrArrow(t: Tables, u: Tables, op: Op, articleId: int, id: int)
    requires ClosedSince(t, u, articleId) && IsClosed(u, articleId) && Failure(u, op, NoFault).None?
    ensures OldOrArrow(t, Effect(u, op), articleId, id)
  {
    hide FindArticle, FindPush, ScoreOf, GoneDelta, Effect;
    assert OldOrArrow(t, u, articleId, id);
    PushAfter(u, op, id);
  }

  /** The pushes of the segment's start that are gone after one more operation. */
  lemma GoneNext(t: Tables, u: Tables, op: Op, articleId: int)
    requires ClosedSince(t, u, articleId) && Failure(u, op, NoFault).None?
    requires op.DeleteArticle? ==> op.articleId != articleId
    ensures GoneDelta(t.pushes, Effect(u, op).pushes, articleId)
         == GoneDelta(t.pushes, u.pushes, articleId) +
            if op.DeletePush? then Share(FindPush(t.pushes, op.pushId), articleId) else 0
  {
    hide FindArticle, FindPush, ScoreOf, GoneDelta, Effect;
    var v := Effect(u, op);
    if op.DeletePush? {
      forall id: int ensures FindPush(v.pushes, id) == if id == op.pushId then None else FindPush(u.pushes, id) {
        PushAfter(u, op, id);
      }
      GoneGrows(t.pushes, 1, t.nextPush, u.pushes, v.pushes, op.pushId, articleId);
    } else {
      forall p | p in t.pushes && p.articleId == articleId
        ensures FindPush(u.pushes, p.id).None? <==> FindPush(v.pushes, p.id).None?
      {
        FindPushIsIn(t.pushes, 1, t.nextPush, p);
        PushIdsLower(t.pushes, 1, t.nextPush, p.id);
        assert OldOrArrow(t, u, articleId, p.id);
        PushAfter(u, op, p.id);
      }
      GoneUnchanged(t.pushes, u.pushes, v.pushes, articleId);
    }
  }

  lemma ClosedStep(t: Tables, u: Tables, op: Op, fault: Fault, articleId: int)
    requires ClosedSince(t, u, articleId) && IsClosed(u, articleId) && IsClosed(Exec(u, op, fault), articleId)
    ensures ClosedSince(t, Exec(u, op, fault), articleId)
  {
    hide FindArticle, FindPush, ScoreOf, GoneDelta, Effect;
    AllOrNothing(u, op, fault);
    ExecKeepsConsistent(u, op, fault);
    if Exec(u, op, fault) != u {
      var v := Effect(u, op);
      ArticleAfter(u, op, articleId);
      ScoreAfter(u, op, articleId);
      GoneNext(t, u, op, articleId);
      IdsGrow(u, op);
      forall id: int ensures OldOrArrow(t, v, articleId, id) {
        StillOldOrArrow(t, u, op, articleId, id);
      }
      if op.DeletePush? {
        assert OldOrArrow(t, u, articleId, op.pushId);
        PushIdsLower(t.pushes, 1, t.nextPush, op.pushId);
      }
    }
  }

  lemma IdsGrow(t: Tables, op: Op)
    ensures t.nextPush <= Effect(t, op).nextPush
  {
  }

  lemma {:induction false} ClosedRun(t: Tables, xs: seq<Attempt>, articleId: int)
    requires Consistent(t) && StaysClosed(t, xs, articleId)
    ensures ClosedSince(t, After(t, xs), articleId)
    decreases |xs|
  {
    hide FindArticle, ClosedSince, Consistent, Exec;
    if xs == [] {
      ClosedStart(t, articleId);
    } else {
      var init := xs[..|xs| - 1];
      ClosedRun(t, init, articleId);
      assert StaysClosed(t, init, articleId);
      ClosedStep(t, After(t, init), xs[|xs| - 1].op, xs[|xs| - 1].fault, articleId);
    }
  }

  /** Over a run in which an article's comments stay closed, whatever else is
      done, its score falls by exactly the deltas of the pushes it has lost. */
  lemma ClosedScoreFallsByDeletions(t: Tables, xs: seq<Attempt>, articleId: int)
    requires Consistent(t) && StaysClosed(t, xs, articleId)
    ensures var u := After(t, xs);
      && FindArticle(t.articles, articleId).Some? && FindArticle(u.articles, articleId).Some?
      && FindArticle(u.articles, articleId).value.recommendScore
         == FindArticle(t.articles, articleId).value.recommendScore - GoneDelta(t.pushes, u.pushes, articleId)
  {
    hide FindArticle, FindPush, ScoreOf, GoneDelta, After;
    StaysClosedStart(t, xs, articleId);
    ClosedRun(t, xs, articleId);
    assert ScoreIs(t, articleId) && ScoreIs(After(t, xs), articleId);
  }

  lemma {:induction false} StaysClosedStart(t: Tables, xs: seq<Attempt>, articleId: int)
    requires StaysClosed(t, xs, articleId)
    ensures IsClosed(t, articleId) && IsClosed(After(t, xs), articleId)
    decreases |xs|
  {
    hide FindArticle, Exec;
    if xs != [] {
      StaysClosedStart(t, xs[..|xs| - 1], articleId);
    }
  }

  /** While an article stays locked its pushes only shrink: every push it has at
      the end is one it had, unchanged, at the start. */
  lemma {:induction false} LockedPushesOnlyShrink(t: Tables, xs: seq<Attempt>, articleId: int, id: int)
    requires Consistent(t) && StaysLocked(t, xs, articleId)
    ensures var p := FindPush(After(t, xs).pushes, id);
      p.Some? && p.value.articleId == articleId ==> FindPush(t.pushes, id) == p
    decreases |xs|
  {
    hide FindArticle, FindPush, Effect;
    if xs != [] {
      var u := After(t, xs[..|xs| - 1]);
      LockedPushesOnlyShrink(t, xs[..|xs| - 1], articleId, id);
      RunKeepsConsistent(t, xs[..|xs| - 1]);
      AllOrNothing(u, xs[|xs| - 1].op, xs[|xs| - 1].fault);
      assert IsLocked(u, articleId);
      PushAfter(u, xs[|xs| - 1].op, id);
    }
  }
}
