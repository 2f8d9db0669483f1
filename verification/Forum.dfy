/** Articles and pushes as a transactional store (internal/store/articles.go,
    internal/store/pushes.go, internal/store/role.go): who may do what, what a
    failed statement leaves behind, and the cached score. */
module Forum {
  import opened Wrappers
  import opened Numerals
  import opened Records

  // -------------------------------------------------------------------- roles

  /** `users.role`; `OtherRole` is a string outside the rank table. */
  datatype Role = Guest | User | Mod | Admin | OtherRole(name: string)

  function Rank(r: Role): Option<nat> {
    match r
    case Guest => Some(0)
    case User => Some(1)
    case Mod => Some(2)
    case Admin => Some(3)
    case OtherRole(_) => None
  }

  predicate AtLeast(r: Role, min: Role) {
    Rank(r).Some? && Rank(min).Some? && Rank(r).value >= Rank(min).value
  }

  // ------------------------------------------------------------------- tables

  datatype Error =
    | InvalidPushKind | ArticleNotFound | CommentsLocked | CommentsArrowsOnly
    | PushNotFound | PermissionDenied | InvalidCommentsMode | DatabaseError

  /** The two tables in id order, and the next `AUTOINCREMENT` ids. */
  datatype Tables = Tables(articles: seq<Article>, pushes: seq<PushRow>, nextArticle: nat, nextPush: nat)

  const EMPTY := Tables([], [], 1, 1)

  function ScoreDelta(k: PushKind): Result<int, Error> {
    match k
    case Push => Ok(1)
    case Boo => Ok(-1)
    case Arrow => Ok(0)
    case OtherKind(_) => Err(InvalidPushKind)
  }

  function Delta(k: PushKind): int { if ScoreDelta(k).Ok? then ScoreDelta(k).value else 0 }

  predicate ValidMode(m: CommentsMode) { m.Open? || m.ArrowsOnly? || m.Locked? }

  /** What an `UPDATE articles SET ...` changes. */
  datatype Change =
    | AddScore(delta: int)
    | Rewrite(title: string, body: string, now: Civil)
    | Pin(at: Option<Civil>)
    | SetMode(mode: CommentsMode)

  function Edited(a: Article, c: Change): Article {
    match c
    case AddScore(d) => a.(recommendScore := a.recommendScore + d)
    case Rewrite(title, body, now) => a.(title := title, body := body, updatedAt := Some(now))
    case Pin(at) => a.(pinnedAt := at)
    case SetMode(m) => a.(commentsMode := m)
  }

  /** `UPDATE articles SET c WHERE id = ?` */
  function UpdateArticles(rows: seq<Article>, id: int, c: Change): seq<Article> {
    if rows == [] then []
    else [if rows[0].id == id then Edited(rows[0], c) else rows[0]] + UpdateArticles(rows[1..], id, c)
  }

  function DeleteFromArticles(rows: seq<Article>, id: int): seq<Article> {
    if rows == [] then []
    else if rows[0].id == id then DeleteFromArticles(rows[1..], id)
    else [rows[0]] + DeleteFromArticles(rows[1..], id)
  }

  function FindArticle(rows: seq<Article>, id: int): Option<Article> {
    if rows == [] then None else if rows[0].id == id then Some(rows[0]) else FindArticle(rows[1..], id)
  }

  function DeleteFromPushes(rows: seq<PushRow>, id: int): seq<PushRow> {
    if rows == [] then []
    else if rows[0].id == id then DeleteFromPushes(rows[1..], id)
    else [rows[0]] + DeleteFromPushes(rows[1..], id)
  }

  /** `ON DELETE CASCADE` of `pushes.article_id`. */
  function Cascade(rows: seq<PushRow>, articleId: int): seq<PushRow> {
    if rows == [] then []
    else if rows[0].articleId == articleId then Cascade(rows[1..], articleId)
    else [rows[0]] + Cascade(rows[1..], articleId)
  }

  function FindPush(rows: seq<PushRow>, id: int): Option<PushRow> {
    if rows == [] then None else if rows[0].id == id then Some(rows[0]) else FindPush(rows[1..], id)
  }

  // --------------------------------------------------------------- operations

  /** The statement of an operation that fails, if any. */
  datatype Fault = NoFault | AtBegin | AtLookup | AtWrite | AtRescore | AtCommit | AtReread

  /** The check of `PushRepo.Create` up to its first write. */
  function CreatePushCheck(t: Tables, articleId: int, kind: PushKind, fault: Fault): Option<Error> {
    if ScoreDelta(kind).Err? then Some(ScoreDelta(kind).error)
    else if fault == AtBegin || fault == AtLookup then Some(DatabaseError)
    else
      var a := FindArticle(t.articles, articleId);
      if a.None? then Some(ArticleNotFound)
      else if a.value.commentsMode.Locked? then Some(CommentsLocked)
      else if a.value.commentsMode.ArrowsOnly? && kind != Arrow then Some(CommentsArrowsOnly)
      else None
  }

  /** Whether a write or the commit of a transaction with this delta fails. */
  predicate Aborts(fault: Fault, delta: int) {
    fault == AtWrite || (fault == AtRescore && delta != 0) || fault == AtCommit
  }

  function DeletePushCheck(t: Tables, id: int, requester: int, role: Role, fault: Fault): Option<Error> {
    if fault == AtBegin || fault == AtLookup then Some(DatabaseError)
    else
      var p := FindPush(t.pushes, id);
      if p.None? then Some(PushNotFound)
      else if p.value.userId != requester && !AtLeast(role, Mod) then Some(PermissionDenied)
      else if ScoreDelta(p.value.kind).Err? then Some(ScoreDelta(p.value.kind).error)
      else None
  }

  /** The check shared by `ArticleRepo.Delete` and `ArticleRepo.Update`. */
  function OwnerCheck(t: Tables, id: int, requester: int, role: Role, fault: Fault): Option<Error> {
    if fault == AtLookup then Some(DatabaseError)
    else
      var a := FindArticle(t.articles, id);
      if a.None? then Some(ArticleNotFound)
      else if a.value.authorId != requester && !AtLeast(role, Mod) then Some(PermissionDenied)
      else None
  }

  /** The check of `ArticleRepo.SetPinned`, and of `SetCommentsMode` once the
      mode is known to be valid: no author is admitted. */
  function ModCheck(t: Tables, id: int, role: Role, fault: Fault): Option<Error> {
    if !AtLeast(role, Mod) then Some(PermissionDenied)
    else if fault == AtLookup then Some(DatabaseError)
    else if FindArticle(t.articles, id).None? then Some(ArticleNotFound)
    else None
  }

  datatype Op =
    | CreatePush(articleId: int, userId: int, userUserId: string, kind: PushKind, pushBody: string, pushedAt: Civil)
    | DeletePush(pushId: int, requester: int, role: Role)
    | CreateArticle(boardId: int, authorId: int, authorUserId: string, title: string, body: string, postedAt: Civil)
    | DeleteArticle(articleId: int, requester: int, role: Role)
    | UpdateArticle(articleId: int, requester: int, role: Role, newTitle: string, newBody: string, editedAt: Civil)
    | SetPinned(articleId: int, requester: int, role: Role, pinned: bool, pinnedAt: Civil)
    | SetCommentsMode(articleId: int, requester: int, role: Role, mode: CommentsMode)

  /** The error an operation returns, if any; a row that was written but could
      not be read back is an error too. */
  function Failure(t: Tables, op: Op, fault: Fault): Option<Error> {
    match op
    case CreatePush(articleId, _, _, kind, _, _) =>
      var e := CreatePushCheck(t, articleId, kind, fault);
      if e.Some? then e else if Aborts(fault, Delta(kind)) || fault == AtReread then Some(DatabaseError) else None
    case DeletePush(id, requester, role) =>
      var e := DeletePushCheck(t, id, requester, role, fault);
      if e.Some? then e
      else if Aborts(fault, Delta(FindPush(t.pushes, id).value.kind)) then Some(DatabaseError)
      else None
    case CreateArticle(_, _, _, _, _, _) => if fault == AtWrite || fault == AtReread then Some(DatabaseError) else None
    case DeleteArticle(id, requester, role) =>
      var e := OwnerCheck(t, id, requester, role, fault);
      if e.Some? then e else if fault == AtWrite then Some(DatabaseError) else None
    case UpdateArticle(id, requester, role, _, _, _) =>
      var e := OwnerCheck(t, id, requester, role, fault);
      if e.Some? then e else if fault == AtWrite then Some(DatabaseError) else None
    case SetPinned(id, _, role, _, _) =>
      var e := ModCheck(t, id, role, fault);
      if e.Some? then e else if fault == AtWrite then Some(DatabaseError) else None
    case SetCommentsMode(id, _, role, mode) =>
      var e := if ValidMode(mode) then ModCheck(t, id, role, fault) else Some(InvalidCommentsMode);
      if e.Some? then e else if fault == AtWrite then Some(DatabaseError) else None
  }

  function Rescored(t: Tables, articleId: int, delta: int): Tables {
    if delta == 0 then t else t.(articles := UpdateArticles(t.articles, articleId, AddScore(delta)))
  }

  /** The tables after an operation that gets through. */
  function Effect(t: Tables, op: Op): Tables {
    match op
    case CreatePush(articleId, userId, userUserId, kind, body, now) =>
      var row := PushRow(t.nextPush, articleId, userId, userUserId, kind, body, now);
      Rescored(t.(pushes := t.pushes + [row], nextPush := t.nextPush + 1), articleId, Delta(kind))
    case DeletePush(id, _, _) =>
      var p := FindPush(t.pushes, id);
      if p.None? then t
      else Rescored(t.(pushes := DeleteFromPushes(t.pushes, id)), p.value.articleId, -Delta(p.value.kind))
    case CreateArticle(boardId, authorId, authorUserId, title, body, now) =>
      var row := Article(t.nextArticle, boardId, authorId, authorUserId, title, body, 0, now, None, None, Open);
      t.(articles := t.articles + [row],
         nextArticle := t.nextArticle + 1)
    case DeleteArticle(id, _, _) =>
      t.(articles := DeleteFromArticles(t.articles, id), pushes := Cascade(t.pushes, id))
    case UpdateArticle(id, _, _, title, body, now) =>
      t.(articles := UpdateArticles(t.articles, id, Rewrite(title, body, now)))
    case SetPinned(id, _, _, pinned, now) =>
      t.(articles := UpdateArticles(t.articles, id, Pin(if pinned then Some(now) else None)))
    case SetCommentsMode(id, _, _, mode) =>
      t.(articles := UpdateArticles(t.articles, id, SetMode(mode)))
  }

  /** The tables after an operation: its effect, or nothing at all when it fails
      before it is committed. */
  function Exec(t: Tables, op: Op, fault: Fault): Tables {
    if Failure(t, op, fault).None? || (fault == AtReread && Failure(t, op, NoFault).None?) then Effect(t, op) else t
  }

  /** The check ends before the row is read back. */
  lemma RereadIsNoCheck(t: Tables, articleId: int, kind: PushKind)
    ensures CreatePushCheck(t, articleId, kind, AtReread) == CreatePushCheck(t, articleId, kind, NoFault)
  {
    hide FindArticle;
  }

  // ------------------------------------------------------------ the repository

  class Store {
    var articles: seq<Article>
    var pushes: seq<PushRow>
    var nextArticle: nat
    var nextPush: nat

    function Contents(): Tables
      reads this
    {
      Tables(articles, pushes, nextArticle, nextPush)
    }

    constructor ()
      ensures Contents() == EMPTY
    {
      articles, pushes, nextArticle, nextPush := [], [], 1, 1;
    }

    /** `tx.Rollback`: what the transaction wrote is undone. */
    method Rollback(saved: Tables)
      modifies this
      ensures Contents() == saved
    {
      articles, pushes, nextArticle, nextPush := saved.articles, saved.pushes, saved.nextArticle, saved.nextPush;
    }

    /** The kind, the begin of the transaction and the gate on the comments mode. */
    method CheckPush(articleId: int, kind: PushKind, fault: Fault) returns (r: Option<Error>)
      ensures r == CreatePushCheck(Contents(), articleId, kind, fault)
    {
      var delta := ScoreDelta(kind);
      if delta.Err? {
        return Some(delta.error);
      }
      if fault == AtBegin || fault == AtLookup {
        return Some(DatabaseError);
      }
      var parent := FindArticle(articles, articleId);
      if parent.None? {
        return Some(ArticleNotFound);
      }
      match parent.value.commentsMode {
        case Locked => return Some(CommentsLocked);
        case ArrowsOnly =>
          if kind != Arrow {
            return Some(CommentsArrowsOnly);
          }
        case _ =>
      }
      return None;
    }

    method CreatePush(articleId: int, userId: int, userUserId: string, kind: PushKind,
                      body: string, now: Civil, fault: Fault)
      returns (r: Result<PushRow, Error>)
      modifies this
      ensures r.Err? && (r.error != DatabaseError || fault != AtReread) ==> Contents() == old(Contents())
      ensures var t, op := old(Contents()), Op.CreatePush(articleId, userId, userUserId, kind, body, now);
        && Contents() == Exec(t, op, fault)
        && r == match Failure(t, op, fault)
                case Some(e) => Err(e)
                case None => Ok(PushRow(t.nextPush, articleId, userId, userUserId, kind, body, now))
    {
      hide FindArticle, UpdateArticles, CreatePushCheck;
      RereadIsNoCheck(Contents(), articleId, kind);
      var e := CheckPush(articleId, kind, fault);
      if e.Some? {
        return Err(e.value);
      }
      var saved := Tables(articles, pushes, nextArticle, nextPush);
      var delta := Delta(kind);
      if fault == AtWrite {
        return Err(DatabaseError);
      }
      var row := PushRow(nextPush, articleId, userId, userUserId, kind, body, now);
      pushes, nextPush := pushes + [row], nextPush + 1;
      if delta != 0 {
        if fault == AtRescore {
          Rollback(saved);
          return Err(DatabaseError);
        }
        articles := UpdateArticles(articles, articleId, AddScore(delta));
      }
      if fault == AtCommit {
        Rollback(saved);
        return Err(DatabaseError);
      }
      if fault == AtReread {
        return Err(DatabaseError);
      }
      return Ok(row);
    }

    method DeletePush(id: int, requester: int, role: Role, fault: Fault) returns (r: Option<Error>)
      modifies this
      ensures r.Some? ==> Contents() == old(Contents())
      ensures var t, op := old(Contents()), Op.DeletePush(id, requester, role);
        Contents() == Exec(t, op, fault) && r == Failure(t, op, fault)
    {
      hide FindPush, UpdateArticles, DeleteFromPushes, AtLeast;
      if fault == AtBegin {
        return Some(DatabaseError);
      }
      var saved := Tables(articles, pushes, nextArticle, nextPush);
      if fault == AtLookup {
        return Some(DatabaseError);
      }
      var row := FindPush(pushes, id);
      if row.None? {
        return Some(PushNotFound);
      }
      if row.value.userId != requester && !AtLeast(role, Mod) {
        return Some(PermissionDenied);
      }
      var delta := ScoreDelta(row.value.kind);
      if delta.Err? {
        return Some(delta.error);
      }
      if fault == AtWrite {
        return Some(DatabaseError);
      }
      pushes := DeleteFromPushes(pushes, id);
      if delta.value != 0 {
        if fault == AtRescore {
          Rollback(saved);
          return Some(DatabaseError);
        }
        articles := UpdateArticles(articles, row.value.articleId, AddScore(-delta.value));
      }
      if fault == AtCommit {
        Rollback(saved);
        return Some(DatabaseError);
      }
      return None;
    }

    method CreateArticle(boardId: int, authorId: int, authorUserId: string, title: string,
                         body: string, now: Civil, fault: Fault)
      returns (r: Result<int, Error>)
      modifies this
      ensures r.Err? && fault != AtReread ==> Contents() == old(Contents())
      ensures var t, op := old(Contents()), Op.CreateArticle(boardId, authorId, authorUserId, title, body, now);
        && Contents() == Exec(t, op, fault)
        && r == if Failure(t, op, fault).Some? then Err(DatabaseError) else Ok(t.nextArticle)
    {
      if fault == AtWrite {
        return Err(DatabaseError);
      }
      var id := nextArticle;
      articles := articles + [Article(id, boardId, authorId, authorUserId, title, body, 0, now, None, None, Open)];
      nextArticle := id + 1;
      if fault == AtReread {
        return Err(DatabaseError);
      }
      return Ok(id);
    }

    /** The lookup and gate that `DeleteArticle` and `UpdateArticle` begin with. */
    method CheckOwner(id: int, requester: int, role: Role, fault: Fault) returns (r: Option<Error>)
      ensures r == OwnerCheck(Contents(), id, requester, role, fault)
    {
      if fault == AtLookup {
        return Some(DatabaseError);
      }
      var row := FindArticle(articles, id);
      if row.None? {
        return Some(ArticleNotFound);
      }
      if row.value.authorId != requester && !AtLeast(role, Mod) {
        return Some(PermissionDenied);
      }
      return None;
    }

    method DeleteArticle(id: int, requester: int, role: Role, fault: Fault) returns (r: Option<Error>)
      modifies this
      ensures r.Some? ==> Contents() == old(Contents())
      ensures var t, op := old(Contents()), Op.DeleteArticle(id, requester, role);
        Contents() == Exec(t, op, fault) && r == Failure(t, op, fault)
    {
      r := CheckOwner(id, requester, role, fault);
      if r.Some? {
        return;
      }
      if fault == AtWrite {
        return Some(DatabaseError);
      }
      articles := DeleteFromArticles(articles, id);
      pushes := Cascade(pushes, id);
    }

    method UpdateArticle(id: int, requester: int, role: Role, title: string, body: string, now: Civil, fault: Fault)
      returns (r: Option<Error>)
      modifies this
      ensures r.Some? ==> Contents() == old(Contents())
      ensures var t, op := old(Contents()), Op.UpdateArticle(id, requester, role, title, body, now);
        Contents() == Exec(t, op, fault) && r == Failure(t, op, fault)
    {
      r := CheckOwner(id, requester, role, fault);
      if r.Some? {
        return;
      }
      if fault == AtWrite {
        return Some(DatabaseError);
      }
      articles := UpdateArticles(articles, id, Rewrite(title, body, now));
    }

    method SetPinned(id: int, requester: int, role: Role, pinned: bool, now: Civil, fault: Fault)
      returns (r: Option<Error>)
      modifies this
      ensures r.Some? ==> Contents() == old(Contents())
      ensures var t, op := old(Contents()), Op.SetPinned(id, requester, role, pinned, now);
        Contents() == Exec(t, op, fault) && r == Failure(t, op, fault)
    {
      hide FindArticle, UpdateArticles, AtLeast;
      if !AtLeast(role, Mod) {
        return Some(PermissionDenied);
      }
      if fault == AtLookup {
        return Some(DatabaseError);
      }
      if FindArticle(articles, id).None? {
        return Some(ArticleNotFound);
      }
      if fault == AtWrite {
        return Some(DatabaseError);
      }
      if pinned {
        articles := UpdateArticles(articles, id, Pin(Some(now)));
      } else {
        articles := UpdateArticles(articles, id, Pin(None));
      }
      return None;
    }

    method SetCommentsMode(id: int, requester: int, role: Role, mode: CommentsMode, fault: Fault)
      returns (r: Option<Error>)
      modifies this
      ensures r.Some? ==> Contents() == old(Contents())
      ensures var t, op := old(Contents()), Op.SetCommentsMode(id, requester, role, mode);
        Contents() == Exec(t, op, fault) && r == Failure(t, op, fault)
    {
      hide FindArticle, UpdateArticles, AtLeast;
      if !ValidMode(mode) {
        return Some(InvalidCommentsMode);
      }
      if !AtLeast(role, Mod) {
        return Some(PermissionDenied);
      }
      if fault == AtLookup {
        return Some(DatabaseError);
      }
      if FindArticle(articles, id).None? {
        return Some(ArticleNotFound);
      }
      if fault == AtWrite {
        return Some(DatabaseError);
      }
      articles := UpdateArticles(articles, id, Change.SetMode(mode));
      return None;
    }
  }

  // -------------------------------------------------- what the statements do

  lemma {:induction false} FindAfterUpdate(rows: seq<Article>, id: int, c: Change, other: int)
    ensures FindArticle(UpdateArticles(rows, id, c), other)
         == if other == id && FindArticle(rows, id).Some? then Some(Edited(FindArticle(rows, id).value, c))
            else FindArticle(rows, other)
  {
    if rows != [] {
      assert UpdateArticles(rows, id, c)[1..] == UpdateArticles(rows[1..], id, c);
      FindAfterUpdate(rows[1..], id, c, other);
    }
  }

  lemma {:induction false} FindAfterInsert(rows: seq<Article>, a: Article, other: int)
    ensures FindArticle(rows + [a], other)
         == if FindArticle(rows, other).None? && other == a.id then Some(a) else FindArticle(rows, other)
  {
    if rows != [] {
      assert (rows + [a])[1..] == rows[1..] + [a];
      FindAfterInsert(rows[1..], a, other);
    }
  }

  lemma {:induction false} FindAfterDelete(rows: seq<Article>, id: int, other: int)
    ensures FindArticle(DeleteFromArticles(rows, id), other) == if other == id then None else FindArticle(rows, other)
  {
    if rows != [] {
      assert rows[0].id != id ==> DeleteFromArticles(rows, id)[1..] == DeleteFromArticles(rows[1..], id);
      FindAfterDelete(rows[1..], id, other);
    }
  }

  lemma {:induction false} FindPushAfterInsert(rows: seq<PushRow>, p: PushRow, other: int)
    ensures FindPush(rows + [p], other)
         == if FindPush(rows, other).None? && other == p.id then Some(p) else FindPush(rows, other)
  {
    if rows != [] {
      assert (rows + [p])[1..] == rows[1..] + [p];
      FindPushAfterInsert(rows[1..], p, other);
    }
  }

  lemma {:induction false} FindPushAfterDelete(rows: seq<PushRow>, id: int, other: int)
    ensures FindPush(DeleteFromPushes(rows, id), other) == if other == id then None else FindPush(rows, other)
  {
    if rows != [] {
      assert rows[0].id != id ==> DeleteFromPushes(rows, id)[1..] == DeleteFromPushes(rows[1..], id);
      FindPushAfterDelete(rows[1..], id, other);
    }
  }

  /** `articles` and `pushes` are in id order, with ids from `lo` below `hi`. */
  predicate ArticleIds(rows: seq<Article>, lo: int, hi: int) {
    rows != [] ==> lo <= rows[0].id < hi && ArticleIds(rows[1..], rows[0].id + 1, hi)
  }

  predicate PushIds(rows: seq<PushRow>, lo: int, hi: int) {
    rows != [] ==> lo <= rows[0].id < hi && PushIds(rows[1..], rows[0].id + 1, hi)
  }

  lemma {:induction false} PushIdsLower(rows: seq<PushRow>, lo: int, hi: int, id: int)
    requires PushIds(rows, lo, hi)
    ensures FindPush(rows, id).Some? ==> lo <= id < hi && FindPush(rows, id).value.id == id
  {
    if rows != [] {
      PushIdsLower(rows[1..], rows[0].id + 1, hi, id);
    }
  }

  lemma {:induction false} ArticleIdsLower(rows: seq<Article>, lo: int, hi: int, id: int)
    requires ArticleIds(rows, lo, hi)
    ensures FindArticle(rows, id).Some? ==> lo <= id < hi && FindArticle(rows, id).value.id == id
  {
    if rows != [] {
      ArticleIdsLower(rows[1..], rows[0].id + 1, hi, id);
    }
  }

  lemma {:induction false} PushIdsWiden(rows: seq<PushRow>, lo: int, lo': int, hi: int, hi': int)
    requires PushIds(rows, lo, hi) && lo' <= lo && hi <= hi'
    ensures PushIds(rows, lo', hi')
  {
    if rows != [] {
      PushIdsWiden(rows[1..], rows[0].id + 1, rows[0].id + 1, hi, hi');
    }
  }

  lemma {:induction false} ArticleIdsWiden(rows: seq<Article>, lo: int, lo': int, hi: int, hi': int)
    requires ArticleIds(rows, lo, hi) && lo' <= lo && hi <= hi'
    ensures ArticleIds(rows, lo', hi')
  {
    if rows != [] {
      ArticleIdsWiden(rows[1..], rows[0].id + 1, rows[0].id + 1, hi, hi');
    }
  }

  /** The rows keep their order when one is edited, deleted or appended with the
      next id. */
  lemma {:induction false} IdsAfterUpdate(rows: seq<Article>, lo: int, hi: int, id: int, c: Change)
    requires ArticleIds(rows, lo, hi)
    ensures ArticleIds(UpdateArticles(rows, id, c), lo, hi)
  {
    if rows != [] {
      assert UpdateArticles(rows, id, c)[1..] == UpdateArticles(rows[1..], id, c);
      IdsAfterUpdate(rows[1..], rows[0].id + 1, hi, id, c);
    }
  }

  lemma {:induction false} IdsAfterDelete(rows: seq<Article>, lo: int, hi: int, id: int)
    requires ArticleIds(rows, lo, hi)
    ensures ArticleIds(DeleteFromArticles(rows, id), lo, hi)
  {
    if rows != [] {
      assert rows[0].id != id ==> DeleteFromArticles(rows, id)[1..] == DeleteFromArticles(rows[1..], id);
      IdsAfterDelete(rows[1..], rows[0].id + 1, hi, id);
      ArticleIdsWiden(DeleteFromArticles(rows[1..], id), rows[0].id + 1, lo, hi, hi);
    }
  }

  lemma {:induction false} IdsAfterInsert(rows: seq<Article>, lo: int, a: Article)
    requires ArticleIds(rows, lo, a.id) && lo <= a.id
    ensures ArticleIds(rows + [a], lo, a.id + 1)
  {
    if rows == [] {
      assert rows + [a] == [a];
    } else {
      assert (rows + [a])[1..] == rows[1..] + [a];
      IdsAfterInsert(rows[1..], rows[0].id + 1, a);
    }
  }

  lemma {:induction false} PushIdsAfterDelete(rows: seq<PushRow>, lo: int, hi: int, id: int)
    requires PushIds(rows, lo, hi)
    ensures PushIds(DeleteFromPushes(rows, id), lo, hi)
  {
    if rows != [] {
      assert rows[0].id != id ==> DeleteFromPushes(rows, id)[1..] == DeleteFromPushes(rows[1..], id);
      PushIdsAfterDelete(rows[1..], rows[0].id + 1, hi, id);
      PushIdsWiden(DeleteFromPushes(rows[1..], id), rows[0].id + 1, lo, hi, hi);
    }
  }

  lemma {:induction false} PushIdsAfterCascade(rows: seq<PushRow>, lo: int, hi: int, articleId: int)
    requires PushIds(rows, lo, hi)
    ensures PushIds(Cascade(rows, articleId), lo, hi)
  {
    if rows != [] {
      assert rows[0].articleId != articleId ==> Cascade(rows, articleId)[1..] == Cascade(rows[1..], articleId);
      PushIdsAfterCascade(rows[1..], rows[0].id + 1, hi, articleId);
      PushIdsWiden(Cascade(rows[1..], articleId), rows[0].id + 1, lo, hi, hi);
    }
  }

  lemma {:induction false} PushIdsAfterInsert(rows: seq<PushRow>, lo: int, p: PushRow)
    requires PushIds(rows, lo, p.id) && lo <= p.id
    ensures PushIds(rows + [p], lo, p.id + 1)
  {
    if rows == [] {
      assert rows + [p] == [p];
    } else {
      assert (rows + [p])[1..] == rows[1..] + [p];
      PushIdsAfterInsert(rows[1..], rows[0].id + 1, p);
    }
  }

  /** A cascade deletes the pushes of one article and no other. */
  lemma {:induction false} FindPushAfterCascade(rows: seq<PushRow>, lo: int, hi: int, articleId: int, other: int)
    requires PushIds(rows, lo, hi)
    ensures FindPush(Cascade(rows, articleId), other)
         == if FindPush(rows, other).Some? && FindPush(rows, other).value.articleId == articleId then None
            else FindPush(rows, other)
  {
    if rows != [] {
      assert rows[0].articleId != articleId ==> Cascade(rows, articleId)[1..] == Cascade(rows[1..], articleId);
      FindPushAfterCascade(rows[1..], rows[0].id + 1, hi, articleId, other);
      PushIdsLower(rows[1..], rows[0].id + 1, hi, other);
    }
  }

  // ------------------------------------------------------------- the score

  /** The score an article should have: the sum over its surviving pushes. */
  function ScoreOf(rows: seq<PushRow>, articleId: int): int {
    if rows == [] then 0
    else (if rows[0].articleId == articleId then Delta(rows[0].kind) else 0) + ScoreOf(rows[1..], articleId)
  }

  lemma {:induction false} ScoreAfterInsert(rows: seq<PushRow>, p: PushRow, articleId: int)
    ensures ScoreOf(rows + [p], articleId) == ScoreOf(rows, articleId) +
              if p.articleId == articleId then Delta(p.kind) else 0
  {
    if rows == [] {
      assert rows + [p] == [p];
    } else {
      assert (rows + [p])[1..] == rows[1..] + [p];
      ScoreAfterInsert(rows[1..], p, articleId);
    }
  }

  function Share(p: Option<PushRow>, articleId: int): int {
    if p.Some? && p.value.articleId == articleId then Delta(p.value.kind) else 0
  }

  lemma {:induction false} ScoreAfterDelete(rows: seq<PushRow>, lo: int, hi: int, id: int, articleId: int)
    requires PushIds(rows, lo, hi)
    ensures ScoreOf(DeleteFromPushes(rows, id), articleId)
         == ScoreOf(rows, articleId) - Share(FindPush(rows, id), articleId)
  {
    if rows != [] {
      assert rows[0].id != id ==> DeleteFromPushes(rows, id)[1..] == DeleteFromPushes(rows[1..], id);
      ScoreAfterDelete(rows[1..], rows[0].id + 1, hi, id, articleId);
      PushIdsLower(rows[1..], rows[0].id + 1, hi, id);
    }
  }

  lemma {:induction false} ScoreAfterCascade(rows: seq<PushRow>, deleted: int, articleId: int)
    ensures ScoreOf(Cascade(rows, deleted), articleId) == if articleId == deleted then 0 else ScoreOf(rows, articleId)
  {
    if rows != [] {
      assert rows[0].articleId != deleted ==> Cascade(rows, deleted)[1..] == Cascade(rows[1..], deleted);
      ScoreAfterCascade(rows[1..], deleted, articleId);
    }
  }

  lemma {:induction false} NoPushesNoScore(rows: seq<PushRow>, articleId: int)
    requires forall p :: p in rows ==> p.articleId != articleId
    ensures ScoreOf(rows, articleId) == 0
  {
    if rows != [] {
      NoPushesNoScore(rows[1..], articleId);
    }
  }

  // -------------------------------------------------------------- invariants

  ghost predicate IdsInOrder(t: Tables) {
    t.nextArticle > 0 && t.nextPush > 0 && ArticleIds(t.articles, 1, t.nextArticle) && PushIds(t.pushes, 1, t.nextPush)
  }

  /** No push outlives its article, and every push has one of the three kinds. */
  ghost predicate NoOrphans(t: Tables) {
    forall id: int :: FindPush(t.pushes, id).Some? ==>
      && FindArticle(t.articles, FindPush(t.pushes, id).value.articleId).Some?
      && ScoreDelta(FindPush(t.pushes, id).value.kind).Ok?
  }

  /** The cached score is the sum over the surviving pushes; a score is owed to
      no article that is gone. */
  ghost predicate ScoresAgree(t: Tables) {
    forall id: int :: ScoreIs(t, id)
  }

  predicate ScoreIs(t: Tables, id: int) {
    ScoreOf(t.pushes, id) ==
      if FindArticle(t.articles, id).Some? then FindArticle(t.articles, id).value.recommendScore else 0
  }

  ghost predicate Consistent(t: Tables) { IdsInOrder(t) && NoOrphans(t) && ScoresAgree(t) }

  lemma KeepsIds(t: Tables, op: Op)
    requires IdsInOrder(t)
    ensures IdsInOrder(Effect(t, op))
  {
    hide ArticleIds, PushIds, UpdateArticles, DeleteFromArticles, DeleteFromPushes, Cascade;
    match op
    case CreatePush(articleId, userId, userUserId, kind, body, now) =>
      PushIdsAfterInsert(t.pushes, 1, PushRow(t.nextPush, articleId, userId, userUserId, kind, body, now));
      IdsAfterUpdate(t.articles, 1, t.nextArticle, articleId, AddScore(Delta(kind)));
    case DeletePush(id, _, _) =>
      PushIdsAfterDelete(t.pushes, 1, t.nextPush, id);
      if FindPush(t.pushes, id).Some? {
        var p := FindPush(t.pushes, id).value;
        IdsAfterUpdate(t.articles, 1, t.nextArticle, p.articleId, AddScore(-Delta(p.kind)));
      }
    case CreateArticle(boardId, authorId, authorUserId, title, body, now) =>
      var a := Article(t.nextArticle, boardId, authorId, authorUserId, title, body, 0, now, None, None, Open);
      IdsAfterInsert(t.articles, 1, a);
    case DeleteArticle(id, _, _) =>
      IdsAfterDelete(t.articles, 1, t.nextArticle, id);
      PushIdsAfterCascade(t.pushes, 1, t.nextPush, id);
    case UpdateArticle(id, _, _, title, body, now) =>
      IdsAfterUpdate(t.articles, 1, t.nextArticle, id, Rewrite(title, body, now));
    case SetPinned(id, _, _, pinned, now) =>
      IdsAfterUpdate(t.articles, 1, t.nextArticle, id, Pin(if pinned then Some(now) else None));
    case SetCommentsMode(id, _, _, mode) => IdsAfterUpdate(t.articles, 1, t.nextArticle, id, SetMode(mode));
  }

  function EditIf(c: bool, a: Option<Article>, change: Change): Option<Article> {
    if c && a.Some? then Some(Edited(a.value, change)) else a
  }

  /** The article `id`, read from the tables before: one row at a time. */
  function ArticleNext(t: Tables, op: Op, id: int): Option<Article> {
    var a := FindArticle(t.articles, id);
    match op
    case CreatePush(articleId, _, _, kind, _, _) => EditIf(id == articleId, a, AddScore(Delta(kind)))
    case DeletePush(pid, _, _) => EditIf(true, a, AddScore(-Share(FindPush(t.pushes, pid), id)))
    case CreateArticle(boardId, authorId, author, title, body, now) =>
      if id == t.nextArticle then Some(Article(id, boardId, authorId, author, title, body, 0, now, None, None, Open))
      else a
    case DeleteArticle(deleted, _, _) => if id == deleted then None else a
    case UpdateArticle(edited, _, _, title, body, now) => EditIf(id == edited, a, Rewrite(title, body, now))
    case SetPinned(edited, _, _, pinned, now) => EditIf(id == edited, a, Pin(if pinned then Some(now) else None))
    case SetCommentsMode(edited, _, _, mode) => EditIf(id == edited, a, SetMode(mode))
  }

  function PushNext(t: Tables, op: Op, id: int): Option<PushRow> {
    var p := FindPush(t.pushes, id);
    match op
    case CreatePush(articleId, userId, userUserId, kind, body, now) =>
      if id == t.nextPush then Some(PushRow(id, articleId, userId, userUserId, kind, body, now)) else p
    case DeletePush(deleted, _, _) => if id == deleted then None else p
    case DeleteArticle(deleted, _, _) => if p.Some? && p.value.articleId == deleted then None else p
    case _ => p
  }

  function ScoreNext(t: Tables, op: Op, id: int): int {
    var was := ScoreOf(t.pushes, id);
    match op
    case CreatePush(articleId, _, _, kind, _, _) => was + if id == articleId then Delta(kind) else 0
    case DeletePush(pid, _, _) => was - Share(FindPush(t.pushes, pid), id)
    case DeleteArticle(deleted, _, _) => if id == deleted then 0 else was
    case _ => was
  }

  lemma ArticleAfter(t: Tables, op: Op, id: int)
    requires IdsInOrder(t)
    ensures FindArticle(Effect(t, op).articles, id) == ArticleNext(t, op, id)
  {
    hide ArticleIds, PushIds, UpdateArticles, DeleteFromArticles, DeleteFromPushes, Cascade, FindArticle, FindPush;
    match op
    case CreatePush(articleId, userId, userUserId, kind, body, now) =>
      FindAfterUpdate(t.articles, articleId, AddScore(Delta(kind)), id);
    case DeletePush(pid, _, _) =>
      if FindPush(t.pushes, pid).Some? {
        var p := FindPush(t.pushes, pid).value;
        FindAfterUpdate(t.articles, p.articleId, AddScore(-Delta(p.kind)), id);
      }
    case CreateArticle(boardId, authorId, authorUserId, title, body, now) =>
      var row := Article(t.nextArticle, boardId, authorId, authorUserId, title, body, 0, now, None, None, Open);
      FindAfterInsert(t.articles, row, id);
      ArticleIdsLower(t.articles, 1, t.nextArticle, id);
    case DeleteArticle(deleted, _, _) => FindAfterDelete(t.articles, deleted, id);
    case UpdateArticle(edited, _, _, title, body, now) =>
      FindAfterUpdate(t.articles, edited, Rewrite(title, body, now), id);
    case SetPinned(edited, _, _, pinned, now) =>
      FindAfterUpdate(t.articles, edited, Pin(if pinned then Some(now) else None), id);
    case SetCommentsMode(edited, _, _, mode) => FindAfterUpdate(t.articles, edited, SetMode(mode), id);
  }

  lemma PushAfter(t: Tables, op: Op, id: int)
    requires IdsInOrder(t)
    ensures FindPush(Effect(t, op).pushes, id) == PushNext(t, op, id)
  {
    hide ArticleIds, PushIds, UpdateArticles, DeleteFromArticles, DeleteFromPushes, Cascade, FindArticle, FindPush;
    match op
    case CreatePush(articleId, userId, userUserId, kind, body, now) =>
      FindPushAfterInsert(t.pushes, PushRow(t.nextPush, articleId, userId, userUserId, kind, body, now), id);
      PushIdsLower(t.pushes, 1, t.nextPush, id);
    case DeletePush(deleted, _, _) => FindPushAfterDelete(t.pushes, deleted, id);
    case DeleteArticle(deleted, _, _) => FindPushAfterCascade(t.pushes, 1, t.nextPush, deleted, id);
    case _ =>
  }

  lemma ScoreAfter(t: Tables, op: Op, id: int)
    requires IdsInOrder(t)
    ensures ScoreOf(Effect(t, op).pushes, id) == ScoreNext(t, op, id)
  {
    hide ArticleIds, PushIds, UpdateArticles, DeleteFromArticles, DeleteFromPushes,
         Cascade, FindArticle, FindPush, ScoreOf;
    match op
    case CreatePush(articleId, userId, userUserId, kind, body, now) =>
      ScoreAfterInsert(t.pushes, PushRow(t.nextPush, articleId, userId, userUserId, kind, body, now), id);
    case DeletePush(deleted, _, _) => ScoreAfterDelete(t.pushes, 1, t.nextPush, deleted, id);
    case DeleteArticle(deleted, _, _) => ScoreAfterCascade(t.pushes, deleted, id);
    case _ =>
  }

  lemma KeepsScore(t: Tables, op: Op, id: int)
    requires Consistent(t) && Failure(t, op, NoFault).None?
    ensures ScoreIs(Effect(t, op), id)
  {
    hide Effect, FindArticle, FindPush, ScoreOf;
    assert ScoreIs(t, id);
    ArticleAfter(t, op, id);
    ScoreAfter(t, op, id);
    ArticleIdsLower(t.articles, 1, t.nextArticle, id);
  }

  lemma KeepsNoOrphans(t: Tables, op: Op)
    requires Consistent(t) && Failure(t, op, NoFault).None?
    ensures NoOrphans(Effect(t, op))
  {
    hide Effect, FindArticle, FindPush, ScoreOf;
    var u := Effect(t, op);
    forall id: int | FindPush(u.pushes, id).Some?
      ensures FindArticle(u.articles, FindPush(u.pushes, id).value.articleId).Some?
           && ScoreDelta(FindPush(u.pushes, id).value.kind).Ok?
    {
      PushAfter(t, op, id);
      ArticleAfter(t, op, FindPush(u.pushes, id).value.articleId);
    }
  }

  /** Every operation, wherever it fails, leaves the tables consistent. */
  lemma ExecKeepsConsistent(t: Tables, op: Op, fault: Fault)
    requires Consistent(t)
    ensures Consistent(Exec(t, op, fault))
  {
    hide Effect, FindArticle, FindPush, ScoreOf;
    if Exec(t, op, fault) != t {
      GetsThrough(t, op, fault);
      KeepsIds(t, op);
      KeepsNoOrphans(t, op);
      forall id: int ensures ScoreIs(Effect(t, op), id) {
        KeepsScore(t, op, id);
      }
    }
  }

  /** A fault never makes a check pass. */
  lemma GetsThrough(t: Tables, op: Op, fault: Fault)
    ensures Failure(t, op, fault).None? ==> Failure(t, op, NoFault).None?
  {
    hide FindArticle, FindPush;
  }
}
