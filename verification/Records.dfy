/** The rows of the board's tables, and the values their columns may hold. */
module Records {
  import opened Wrappers
  import opened Numerals

  /** `pushes.kind`; `OtherKind` is a string that is none of the three. */
  datatype PushKind = Push | Boo | Arrow | OtherKind(name: string)

  /** `articles.comments_mode` */
  datatype CommentsMode = Open | ArrowsOnly | Locked | OtherMode(name: string)

  datatype Article = Article(
    id: int, boardId: int, authorId: int, authorUserId: string, title: string, body: string,
    recommendScore: int, createdAt: Civil, updatedAt: Option<Civil>, pinnedAt: Option<Civil>,
    commentsMode: CommentsMode)

  datatype PushRow = PushRow(
    id: int, articleId: int, userId: int, userUserId: string, kind: PushKind, body: string,
    createdAt: Civil)
}
