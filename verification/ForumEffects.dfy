/** What each article and push operation leaves behind, field by field, and what
    each refuses with, in terms of what a lookup by id finds before and after. */
module ForumEffects {
  import opened Wrappers
  import opened Numerals
  import opened Records
  import opened Forum
  import opened ForumRuns

  /** Every article but `id` is as it was. */
  ghost predicate OtherArticlesStay(t: Tables, u: Tables, id: int) {
    forall other: int :: other != id ==> FindArticle(u.articles, other) == FindArticle(t.articles, other)
  }

  ghost predicate OtherPushesStay(t: Tables, u: Tables, id: int) {
    forall other: int :: other != id ==> FindPush(u.pushes, other) == FindPush(t.pushes, other)
  }

  ghost predicate PushesStay(t: Tables, u: Tables) {
    forall id: int :: FindPush(u.pushes, id) == FindPush(t.pushes, id)
  }

  /** One article and one push, looked up after a permitted operation. */
  lemma LookedUp(t: Tables, op: Op)
    requires IdsInOrder(t) && Permitted(t, op)
    ensures Exec(t, op, NoFault) == Effect(t, op)
    ensures forall id: int :: FindArticle(Effect(t, op).articles, id) == ArticleNext(t, op, id)
    ensures forall id: int :: FindPush(Effect(t, op).pushes, id) == PushNext(t, op, id)
  {
    GoesThroughExactly(t, op, NoFault);
    forall id: int
      ensures FindArticle(Effect(t, op).articles, id) == ArticleNext(t, op, id)
      ensures FindPush(Effect(t, op).pushes, id) == PushNext(t, op, id)
    {
      ArticleAfter(t, op, id);
      PushAfter(t, op, id);
    }
  }

  /** A permitted update stores title, body and edit time, and nothing else. */
  lemma UpdateStores(t: Tables, id: int, requester: int, role: Role, title: string, body: string, now: Civil)
    requires IdsInOrder(t) && Permitted(t, UpdateArticle(id, requester, role, title, body, now))
    ensures var u := Exec(t, UpdateArticle(id, requester, role, title, body, now), NoFault);
      var a, b := FindArticle(t.articles, id), FindArticle(u.articles, id);
      && a.Some? && b.Some?
      && b.value.title == title && b.value.body == body && b.value.updatedAt == Some(now)
      && b.value.(title := a.value.title, body := a.value.body, updatedAt := a.value.updatedAt) == a.value
      && OtherArticlesStay(t, u, id) && PushesStay(t, u)
  {
    LookedUp(t, UpdateArticle(id, requester, role, title, body, now));
    hide FindArticle, FindPush, Effect;
  }

  /** A permitted pin stores its time, and a permitted unpin takes it away. */
  lemma PinStores(t: Tables, id: int, requester: int, role: Role, pinned: bool, now: Civil)
    requires IdsInOrder(t) && Permitted(t, SetPinned(id, requester, role, pinned, now))
    ensures var u := Exec(t, SetPinned(id, requester, role, pinned, now), NoFault);
      var a, b := FindArticle(t.articles, id), FindArticle(u.articles, id);
      && a.Some? && b.Some?
      && (pinned ==> b.value.pinnedAt == Some(now)) && (!pinned ==> b.value.pinnedAt == None)
      && b.value.(pinnedAt := a.value.pinnedAt) == a.value
      && OtherArticlesStay(t, u, id) && PushesStay(t, u)
  {
    LookedUp(t, SetPinned(id, requester, role, pinned, now));
    hide FindArticle, FindPush, Effect;
  }

  lemma ModeStores(t: Tables, id: int, requester: int, role: Role, mode: CommentsMode)
    requires IdsInOrder(t) && Permitted(t, SetCommentsMode(id, requester, role, mode))
    ensures var u := Exec(t, SetCommentsMode(id, requester, role, mode), NoFault);
      var a, b := FindArticle(t.articles, id), FindArticle(u.articles, id);
      && a.Some? && b.Some? && b.value.commentsMode == mode
      && b.value.(commentsMode := a.value.commentsMode) == a.value
      && OtherArticlesStay(t, u, id) && PushesStay(t, u)
  {
    LookedUp(t, SetCommentsMode(id, requester, role, mode));
    hide FindArticle, FindPush, Effect;
  }

  /** A new article has a fresh id, what it was given, and nothing else. */
  lemma ArticleIsPosted(t: Tables, boardId: int, authorId: int, author: string, title: string, body: string, now: Civil)
    requires IdsInOrder(t)
    ensures var u, id := Exec(t, CreateArticle(boardId, authorId, author, title, body, now), NoFault), t.nextArticle;
      var b := FindArticle(u.articles, id);
      && FindArticle(t.articles, id).None? && b.Some? && u.nextArticle == id + 1
      && b.value.id == id && b.value.boardId == boardId && b.value.authorId == authorId
      && b.value.authorUserId == author && b.value.title == title && b.value.body == body
      && b.value.createdAt == now && b.value.recommendScore == 0 && b.value.commentsMode == Open
      && b.value.updatedAt == None && b.value.pinnedAt == None
      && OtherArticlesStay(t, u, id) && PushesStay(t, u)
  {
    LookedUp(t, CreateArticle(boardId, authorId, author, title, body, now));
    ArticleIdsLower(t.articles, 1, t.nextArticle, t.nextArticle);
    hide FindArticle, FindPush;
  }

  /** A deleted article is gone with its own pushes, and no other. */
  lemma ArticleIsDeleted(t: Tables, id: int, requester: int, role: Role)
    requires IdsInOrder(t) && Permitted(t, DeleteArticle(id, requester, role))
    ensures var u := Exec(t, DeleteArticle(id, requester, role), NoFault);
      && FindArticle(u.articles, id).None? && OtherArticlesStay(t, u, id)
      && forall n: int :: FindPush(u.pushes, n)
                          == if FindPush(t.pushes, n).Some? && FindPush(t.pushes, n).value.articleId == id then None
                             else FindPush(t.pushes, n)
  {
    LookedUp(t, DeleteArticle(id, requester, role));
    hide FindArticle, FindPush, Effect;
  }

  /** A new push has a fresh id and what it was given; the score of its article,
      and of no other, moves up for a push, down for a boo, and not for an arrow. */
  lemma PushIsStored(t: Tables, articleId: int, userId: int, user: string, kind: PushKind, body: string, now: Civil)
    requires IdsInOrder(t) && Permitted(t, CreatePush(articleId, userId, user, kind, body, now))
    ensures var u, n := Exec(t, CreatePush(articleId, userId, user, kind, body, now), NoFault), t.nextPush;
      var p, a, b := FindPush(u.pushes, n), FindArticle(t.articles, articleId), FindArticle(u.articles, articleId);
      && FindPush(t.pushes, n).None? && p.Some? && u.nextPush == n + 1 && a.Some? && b.Some?
      && p.value.id == n && p.value.articleId == articleId && p.value.userId == userId && p.value.userUserId == user
      && p.value.kind == kind && p.value.body == body && p.value.createdAt == now
      && (kind.Push? ==> b.value.recommendScore == a.value.recommendScore + 1)
      && (kind.Boo? ==> b.value.recommendScore == a.value.recommendScore - 1)
      && (kind.Arrow? ==> b.value.recommendScore == a.value.recommendScore)
      && b.value.(recommendScore := a.value.recommendScore) == a.value
      && OtherArticlesStay(t, u, articleId) && OtherPushesStay(t, u, n)
  {
    LookedUp(t, CreatePush(articleId, userId, user, kind, body, now));
    PushIdsLower(t.pushes, 1, t.nextPush, t.nextPush);
    hide FindArticle, FindPush;
  }

  /** A deleted push is gone, and the score of its article is what it was before
      that push. */
  lemma PushIsDeleted(t: Tables, n: int, requester: int, role: Role)
    requires Consistent(t) && Permitted(t, DeletePush(n, requester, role))
    ensures var u, p := Exec(t, DeletePush(n, requester, role), NoFault), FindPush(t.pushes, n);
      && p.Some? && FindPush(u.pushes, n).None? && OtherPushesStay(t, u, n)
      && OtherArticlesStay(t, u, p.value.articleId)
      && var a, b := FindArticle(t.articles, p.value.articleId), FindArticle(u.articles, p.value.articleId);
         && a.Some? && b.Some? && b.value.(recommendScore := a.value.recommendScore) == a.value
         && (p.value.kind.Push? ==> b.value.recommendScore == a.value.recommendScore - 1)
         && (p.value.kind.Boo? ==> b.value.recommendScore == a.value.recommendScore + 1)
         && (p.value.kind.Arrow? ==> b.value.recommendScore == a.value.recommendScore)
  {
    LookedUp(t, DeletePush(n, requester, role));
    hide FindArticle, FindPush, Effect;
    assert FindArticle(t.articles, FindPush(t.pushes, n).value.articleId).Some?;
  }

  /** The four roles in rank order; a role outside the table is at least nothing,
      and nothing is at least it. */
  lemma RanksExactly(r: Role, min: Role)
    ensures AtLeast(r, min) <==>
              || (r == Role.Admin && !min.OtherRole?)
              || (r == Role.Mod && (min == Role.Mod || min == Role.User || min == Role.Guest))
              || (r == Role.User && (min == Role.User || min == Role.Guest))
              || (r == Role.Guest && min == Role.Guest)
  {
  }

  // ------------------------------------------------------------------ refusals

  /** Who and what each refusal is about, when no statement fails. */
  ghost predicate Refuses(t: Tables, op: Op, e: Error) {
    match op
    case CreatePush(articleId, _, _, kind, _, _) =>
      var a := FindArticle(t.articles, articleId);
      match e {
        case InvalidPushKind => kind.OtherKind?
        case ArticleNotFound => !kind.OtherKind? && a.None?
        case CommentsLocked => !kind.OtherKind? && a.Some? && a.value.commentsMode == Locked
        case CommentsArrowsOnly => (kind.Push? || kind.Boo?) && a.Some? && a.value.commentsMode == ArrowsOnly
        case _ => false
      }
    case DeletePush(id, requester, role) =>
      var p := FindPush(t.pushes, id);
      match e {
        case PushNotFound => p.None?
        case PermissionDenied => p.Some? && p.value.userId != requester && role != Role.Mod && role != Role.Admin
        case InvalidPushKind =>
          p.Some? && p.value.kind.OtherKind? && (p.value.userId == requester || role == Role.Mod || role == Role.Admin)
        case _ => false
      }
    case CreateArticle(_, _, _, _, _, _) => false
    case DeleteArticle(id, requester, role) => RefusesOwner(t, id, requester, role, e)
    case UpdateArticle(id, requester, role, _, _, _) => RefusesOwner(t, id, requester, role, e)
    case SetPinned(id, _, role, _, _) => RefusesModerator(t, id, role, e)
    case SetCommentsMode(id, _, role, mode) =>
      if mode.OtherMode? then e == InvalidCommentsMode else RefusesModerator(t, id, role, e)
  }

  ghost predicate RefusesOwner(t: Tables, id: int, requester: int, role: Role, e: Error) {
    var a := FindArticle(t.articles, id);
    match e {
      case ArticleNotFound => a.None?
      case PermissionDenied => a.Some? && a.value.authorId != requester && role != Role.Mod && role != Role.Admin
      case _ => false
    }
  }

  ghost predicate RefusesModerator(t: Tables, id: int, role: Role, e: Error) {
    match e {
      case PermissionDenied => role != Role.Mod && role != Role.Admin
      case ArticleNotFound => (role == Role.Mod || role == Role.Admin) && FindArticle(t.articles, id).None?
      case _ => false
    }
  }

  /** With no failing statement, an operation is refused with an error exactly when
      what that error says is so. */
  lemma RefusesExactly(t: Tables, op: Op, e: Error)
    ensures Failure(t, op, NoFault) == Some(e) <==> Refuses(t, op, e)
  {
    hide FindArticle, FindPush;
  }

  /** The statements that an operation makes when its check passes, by the fault
      that stands for the failure of each; an arrow needs no new score. */
  predicate Makes(t: Tables, op: Op, fault: Fault) {
    match op
    case CreatePush(_, _, _, kind, _, _) =>
      fault.AtBegin? || fault.AtLookup? || fault.AtWrite? || (fault.AtRescore? && !kind.Arrow?)
      || fault.AtCommit? || fault.AtReread?
    case DeletePush(id, _, _) =>
      var p := FindPush(t.pushes, id);
      fault.AtBegin? || fault.AtLookup? || fault.AtWrite? || fault.AtCommit?
      || (fault.AtRescore? && p.Some? && !p.value.kind.Arrow?)
    case CreateArticle(_, _, _, _, _, _) => fault.AtWrite? || fault.AtReread?
    case _ => fault.AtLookup? || fault.AtWrite?
  }

  /** A permitted operation returns an error exactly when one of its statements
      fails, and then the tables are as they were, unless all that failed was to
      read back a row that is committed. */
  lemma FaultsAreReported(t: Tables, op: Op, fault: Fault)
    requires Permitted(t, op)
    ensures Failure(t, op, fault) == if Makes(t, op, fault) then Some(DatabaseError) else None
    ensures Exec(t, op, fault)
         == if Makes(t, op, fault) && !fault.AtReread? then t else Exec(t, op, NoFault)
  {
    hide FindArticle, FindPush, Effect;
  }
}
