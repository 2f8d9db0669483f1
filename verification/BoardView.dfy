/** The article list screen of a board (internal/tui/screen_board_view.go): its
    cursor, filter and order, and what a reload does to the highlight. */
module BoardView {
  import opened Wrappers
  import opened GoStrings
  import opened Records
  import Forum
  import Listing

  /** The model's fields; Go passes it by value.  `board` is missing when the
      board could not be loaded. */
  datatype View = View(
    board: Option<int>, role: Forum.Role, articles: seq<Article>, cursor: int, loadErr: bool,
    typed: string, searchActive: bool, filter: string, byScore: bool)

  /** What the store holds when a message makes the screen reload, and whether
      the query, or the pin before it, fails. */
  datatype Env = Env(rows: seq<Article>, listFails: bool, pinFails: bool)

  datatype Key = Slash | Enter | Esc | SortKey | Up | Down | Home | End | PinKey | OtherKey

  /** A key carries what the search input would hold after it. */
  datatype Msg =
    | ArticleAdded(boardId: int)
    | PinChanged(boardId: int)
    | ModeChanged(boardId: int)
    | KeyPressed(key: Key, text: string)

  const LIMIT := 100

  /** `findCursorByID`: the index of the first article with that id, or 0. */
  function FindCursor(arts: seq<Article>, id: int): (i: nat)
    ensures (exists a :: a in arts && a.id == id) ==> i < |arts| && arts[i].id == id
    ensures arts != [] ==> i < |arts|
  {
    if arts == [] || arts[0].id == id then 0
    else
      assert arts == [arts[0]] + arts[1..];
      var i := FindCursor(arts[1..], id);
      if i < |arts[1..]| && arts[1..][i].id == id then i + 1 else 0
  }

  function AnchorOf(v: View): int {
    if 0 <= v.cursor < |v.articles| then v.articles[v.cursor].id else 0
  }

  function Listed(v: View, rows: seq<Article>): seq<Article>
    requires v.board.Some?
  {
    Listing.ListByBoard(rows, v.board.value, Listing.Options(LIMIT, v.filter, v.byScore))
  }

  /** `reload`: a failed query leaves the list as it was. */
  function Reloaded(v: View, env: Env, anchor: int): View {
    if v.board.None? then v
    else if env.listFails then v.(loadErr := true)
    else
      var arts := Listed(v, env.rows);
      var at := if anchor > 0 then FindCursor(arts, anchor) else v.cursor;
      v.(articles := arts, cursor := if at < |arts| then at else if arts == [] then 0 else |arts| - 1)
  }

  /** A confirmed or cancelled search starts again at the top. */
  function Searched(v: View, env: Env, typed: string, filter: string): View {
    Reloaded(v.(typed := typed, filter := filter, searchActive := false, cursor := 0), env, 0)
  }

  function Pressed(v: View, env: Env, key: Key, text: string): View {
    if v.searchActive then
      match key
      case Enter => Searched(v, env, v.typed, TrimSpace(v.typed))
      case Esc => Searched(v, env, "", "")
      case _ => v.(typed := text)
    else
      match key
      case Slash => v.(searchActive := true, typed := v.filter)
      case Esc => if v.filter != "" then Searched(v, env, "", "") else v
      case SortKey => Reloaded(v.(byScore := !v.byScore), env, AnchorOf(v))
      case Up => if v.cursor > 0 then v.(cursor := v.cursor - 1) else v
      case Down => if v.cursor < |v.articles| - 1 then v.(cursor := v.cursor + 1) else v
      case Home => v.(cursor := 0)
      case End => if v.articles != [] then v.(cursor := |v.articles| - 1) else v
      case PinKey =>
        if v.board.None? || !Forum.AtLeast(v.role, Forum.Mod) || v.articles == [] || env.pinFails then v
        else Reloaded(v, env, AnchorOf(v))
      case _ => v
  }

  function Updated(v: View, env: Env, msg: Msg): View {
    match msg
    case ArticleAdded(board) => if v.board == Some(board) then Reloaded(v, env, 0) else v
    case PinChanged(board) => if v.board == Some(board) then Reloaded(v, env, AnchorOf(v)) else v
    case ModeChanged(board) => if v.board == Some(board) then Reloaded(v, env, AnchorOf(v)) else v
    case KeyPressed(key, text) => Pressed(v, env, key, text)
  }

  /** `newBoardViewModel` */
  function Opened(board: Option<int>, role: Forum.Role, env: Env): View {
    Reloaded(View(board, role, [], 0, board.None?, "", false, "", false), env, 0)
  }

  function Run(v: View, msgs: seq<(Env, Msg)>): View {
    if msgs == [] then v
    else Updated(Run(v, msgs[..|msgs| - 1]), msgs[|msgs| - 1].0, msgs[|msgs| - 1].1)
  }

  // ------------------------------------------------------------------ methods

  method FindCursorByID(arts: seq<Article>, id: int) returns (at: nat)
    ensures at == FindCursor(arts, id)
  {
    for i := 0 to |arts|
      invariant forall j :: 0 <= j < i ==> arts[j].id != id
    {
      if arts[i].id == id {
        FindCursorIs(arts, id, i);
        return i;
      }
    }
    FindCursorNone(arts, id);
    return 0;
  }

  method Reload(v: View, env: Env, anchor: int) returns (m: View)
    ensures m == Reloaded(v, env, anchor)
  {
    m := v;
    if m.board.None? {
      return;
    }
    if env.listFails {
      if !m.loadErr {
        m := m.(loadErr := true);
      }
      return;
    }
    var arts := Listed(m, env.rows);
    m := m.(articles := arts);
    if anchor > 0 {
      var at := FindCursorByID(arts, anchor);
      m := m.(cursor := at);
    }
    if m.cursor >= |arts| {
      m := m.(cursor := if |arts| - 1 > 0 then |arts| - 1 else 0);
    }
  }

  method Update(v: View, env: Env, msg: Msg) returns (m: View)
    ensures m == Updated(v, env, msg)
  {
    hide Reloaded, TrimSpace;
    m := v;
    match msg {
      case ArticleAdded(boardId) =>
        if m.board == Some(boardId) {
          m := Reload(m, env, 0);
        }
      case PinChanged(boardId) =>
        if m.board == Some(boardId) {
          m := Reload(m, env, AnchorOf(m));
        }
      case ModeChanged(boardId) =>
        if m.board == Some(boardId) {
          m := Reload(m, env, AnchorOf(m));
        }
      case KeyPressed(key, text) =>
        if m.searchActive {
          m := Search(m, env, key, text);
        } else {
          m := Press(m, env, key);
        }
    }
  }

  /** The keys of the focused search input. */
  method Search(v: View, env: Env, key: Key, text: string) returns (m: View)
    requires v.searchActive
    ensures m == Pressed(v, env, key, text)
  {
    hide Reloaded, TrimSpace;
    m := v;
    match key {
      case Enter =>
        m := m.(filter := TrimSpace(m.typed), searchActive := false, cursor := 0);
        m := Reload(m, env, 0);
      case Esc =>
        m := m.(typed := "", filter := "", searchActive := false, cursor := 0);
        m := Reload(m, env, 0);
      case _ => m := m.(typed := text);
    }
  }

  method Press(v: View, env: Env, key: Key) returns (m: View)
    requires !v.searchActive
    ensures forall text :: m == Pressed(v, env, key, text)
  {
    hide Reloaded, TrimSpace;
    m := v;
    match key {
      case Slash => m := m.(searchActive := true, typed := m.filter);
      case Esc =>
        if m.filter != "" {
          m := m.(filter := "", typed := "", cursor := 0);
          m := Reload(m, env, 0);
        }
      case SortKey =>
        m := m.(byScore := !m.byScore);
        m := Reload(m, env, AnchorOf(m));
      case Up =>
        if m.cursor > 0 {
          m := m.(cursor := m.cursor - 1);
        }
      case Down =>
        if m.cursor < |m.articles| - 1 {
          m := m.(cursor := m.cursor + 1);
        }
      case Home => m := m.(cursor := 0);
      case End =>
        if |m.articles| > 0 {
          m := m.(cursor := |m.articles| - 1);
        }
      case PinKey =>
        if m.board.Some? && Forum.AtLeast(m.role, Forum.Mod) && |m.articles| > 0 && !env.pinFails {
          m := Reload(m, env, AnchorOf(m));
        }
      case _ =>
    }
  }

  lemma {:induction false} FindCursorIs(arts: seq<Article>, id: int, i: nat)
    requires i < |arts| && arts[i].id == id && forall j :: 0 <= j < i ==> arts[j].id != id
    ensures FindCursor(arts, id) == i
  {
    if i > 0 {
      FindCursorIs(arts[1..], id, i - 1);
    }
  }

  lemma {:induction false} FindCursorNone(arts: seq<Article>, id: int)
    requires forall a :: a in arts ==> a.id != id
    ensures FindCursor(arts, id) == 0
  {
    if arts != [] {
      FindCursorNone(arts[1..], id);
    }
  }

  // --------------------------------------------------------------- invariants

  /** The cursor is on an article, or at 0 of an empty list. */
  predicate InRange(v: View) { 0 <= v.cursor && (v.cursor < |v.articles| || (v.cursor == 0 && v.articles == [])) }

  lemma ReloadKeepsRange(v: View, env: Env, anchor: int)
    requires InRange(v) || (v.cursor == 0)
    ensures InRange(Reloaded(v, env, anchor))
  {
    hide Listed;
  }

  lemma SearchKeepsRange(v: View, env: Env, typed: string, filter: string)
    ensures InRange(Searched(v, env, typed, filter))
  {
    hide Reloaded;
    ReloadKeepsRange(v.(typed := typed, filter := filter, searchActive := false, cursor := 0), env, 0);
  }

  lemma PressKeepsRange(v: View, env: Env, key: Key, text: string)
    requires InRange(v)
    ensures InRange(Pressed(v, env, key, text))
  {
    hide Reloaded, Searched, TrimSpace;
    SearchKeepsRange(v, env, v.typed, TrimSpace(v.typed));
    SearchKeepsRange(v, env, "", "");
    ReloadKeepsRange(v.(byScore := !v.byScore), env, AnchorOf(v));
    ReloadKeepsRange(v, env, AnchorOf(v));
  }

  lemma {:induction false} UpdateKeepsRange(v: View, env: Env, msg: Msg)
    requires InRange(v)
    ensures InRange(Updated(v, env, msg))
  {
    hide Reloaded, Pressed;
    match msg
    case ArticleAdded(_) => ReloadKeepsRange(v, env, 0);
    case PinChanged(_) => ReloadKeepsRange(v, env, AnchorOf(v));
    case ModeChanged(_) => ReloadKeepsRange(v, env, AnchorOf(v));
    case KeyPressed(key, text) => PressKeepsRange(v, env, key, text);
  }

  /** After any messages, whatever the store holds at each of them and however
      many reloads fail, the cursor is in range. */
  lemma {:induction false} CursorStaysInRange(board: Option<int>, role: Forum.Role, env: Env, msgs: seq<(Env, Msg)>)
    ensures InRange(Run(Opened(board, role, env), msgs))
    decreases |msgs|
  {
    hide Updated, Listed;
    if msgs != [] {
      CursorStaysInRange(board, role, env, msgs[..|msgs| - 1]);
      UpdateKeepsRange(Run(Opened(board, role, env), msgs[..|msgs| - 1]), msgs[|msgs| - 1].0, msgs[|msgs| - 1].1);
    }
  }

  // ---------------------------------------------------------------- highlight

  /** The messages whose reload is anchored on the highlighted article. */
  predicate IsAnchored(v: View, msg: Msg) {
    match msg
    case PinChanged(_) => true
    case ModeChanged(_) => true
    case KeyPressed(key, _) => !v.searchActive && (key.SortKey? || key.PinKey?)
    case ArticleAdded(_) => false
  }

  predicate IsHighlighted(v: View, id: int) { 0 <= v.cursor < |v.articles| && v.articles[v.cursor].id == id }

  ghost predicate IsListed(v: View, id: int) { exists a :: a in v.articles && a.id == id }

  lemma AnchoredReload(v: View, w: View, env: Env, id: int)
    requires IsHighlighted(v, id) && id > 0 && w.articles == v.articles && w.cursor == v.cursor
    ensures IsListed(Reloaded(w, env, AnchorOf(v)), id) ==> IsHighlighted(Reloaded(w, env, AnchorOf(v)), id)
  {
    hide Listed;
  }

  /** The same article stays highlighted whenever it is still in the list: after
      a change of order, of a pin or of a comments mode, and after a reload that
      failed. */
  lemma HighlightFollowsArticle(v: View, env: Env, msg: Msg, id: int)
    requires IsHighlighted(v, id) && id > 0 && IsAnchored(v, msg)
    ensures IsListed(Updated(v, env, msg), id) ==> IsHighlighted(Updated(v, env, msg), id)
  {
    hide Reloaded, Searched;
    AnchoredReload(v, v, env, id);
    AnchoredReload(v, v.(byScore := !v.byScore), env, id);
  }

  /** An article that is in the table and asked for is lost from the list only by
      a list that is full. */
  lemma WantedIsListed(v: View, env: Env, anchor: int, hi: int, a: Article)
    requires v.board.Some? && !env.listFails && Forum.ArticleIds(env.rows, 1, hi) && a in env.rows
    requires Listing.Wanted(a, v.board.value, Listing.Options(LIMIT, v.filter, v.byScore))
    ensures IsListed(Reloaded(v, env, anchor), a.id) || |Reloaded(v, env, anchor).articles| == LIMIT
  {
    hide Listing.Wanted, Listing.ListByBoard;
    Listing.ListingIsExact(env.rows, hi, v.board.value, Listing.Options(LIMIT, v.filter, v.byScore));
  }

  /** Changing the order moves the rows, never the highlight, as long as the
      article is still in the table, still matches and the list is not full. */
  lemma SortKeepsHighlight(v: View, env: Env, text: string, hi: int, a: Article)
    requires IsHighlighted(v, a.id) && !v.searchActive && v.board.Some? && !env.listFails
    requires Forum.ArticleIds(env.rows, 1, hi) && a in env.rows
    requires Listing.Wanted(a, v.board.value, Listing.Options(LIMIT, v.filter, !v.byScore))
    ensures var u := Updated(v, env, KeyPressed(SortKey, text));
      u.byScore != v.byScore && (IsHighlighted(u, a.id) || |u.articles| == LIMIT)
  {
    hide Listing.Wanted, Searched, TrimSpace;
    Listing.IdsAreDistinct(env.rows, 1, hi);
    WantedIsListed(v.(byScore := !v.byScore), env, AnchorOf(v), hi, a);
    HighlightFollowsArticle(v, env, KeyPressed(SortKey, text), a.id);
  }

  /** Confirming a search shows only articles of the board whose titles contain
      the trimmed text, from the top; cancelling it drops the filter. */
  lemma SearchShowsMatches(v: View, env: Env, text: string, hi: int)
    requires v.searchActive && v.board.Some? && !env.listFails && Forum.ArticleIds(env.rows, 1, hi)
    ensures var u, w := Updated(v, env, KeyPressed(Enter, text)), Updated(v, env, KeyPressed(Esc, text));
      && u.cursor == 0 && !u.searchActive && u.filter == TrimSpace(v.typed) && u.typed == v.typed
      && (forall a :: a in u.articles ==>
            a in env.rows && Listing.Wanted(a, v.board.value, Listing.Options(LIMIT, u.filter, v.byScore)))
      && w.cursor == 0 && !w.searchActive && w.filter == "" && w.typed == ""
      && (forall a :: a in w.articles ==> a in env.rows && a.boardId == v.board.value)
  {
    hide Listing.ListByBoard, TrimSpace;
    Listing.ListingIsExact(env.rows, hi, v.board.value, Listing.Options(LIMIT, TrimSpace(v.typed), v.byScore));
    Listing.ListingIsExact(env.rows, hi, v.board.value, Listing.Options(LIMIT, "", v.byScore));
  }

  // ------------------------------------------------- what keys and messages do

  /** A reload lists up to 100 articles of the board; the cursor follows the anchor,
      goes to the top when the anchor is not listed, and without an anchor stays
      where it is or moves up to the last article.  A failed query changes nothing
      but that there was an error. */
  lemma ReloadGives(v: View, env: Env, anchor: int)
    requires v.board.Some?
    ensures env.listFails ==> Reloaded(v, env, anchor) == v.(loadErr := true)
    ensures !env.listFails ==>
              var u := Reloaded(v, env, anchor);
              var arts := Listing.ListByBoard(env.rows, v.board.value, Listing.Options(100, v.filter, v.byScore));
              && u == v.(articles := arts, cursor := u.cursor)
              && (anchor > 0 && (exists a :: a in arts && a.id == anchor) ==> IsHighlighted(u, anchor))
              && (anchor > 0 && (forall a :: a in arts ==> a.id != anchor) ==> u.cursor == 0)
              && (anchor <= 0 && v.cursor < |arts| ==> u.cursor == v.cursor)
              && (anchor <= 0 && v.cursor >= |arts| ==> u.cursor == if arts == [] then 0 else |arts| - 1)
  {
    hide Listing.ListByBoard;
    if !env.listFails {
      var arts := Listed(v, env.rows);
      if forall a :: a in arts ==> a.id != anchor {
        FindCursorNone(arts, anchor);
      }
    }
  }

  /** With no article under the cursor there is nothing to follow, and the reload
      starts at the top. */
  lemma EmptyListStartsAtTop(v: View, env: Env, msg: Msg)
    requires InRange(v) && v.articles == [] && IsAnchored(v, msg)
    ensures Updated(v, env, msg).cursor == 0
  {
    hide Listed, Searched;
  }

  /** The screen opens at the top of the newest articles, with no search; without a
      board or a list it opens with an error. */
  lemma OpensAtTheTop(board: int, role: Forum.Role, env: Env)
    ensures env.listFails ==> Opened(Some(board), role, env).loadErr && Opened(Some(board), role, env).articles == []
    ensures !env.listFails ==>
              Opened(Some(board), role, env)
              == View(Some(board), role, Listing.ListByBoard(env.rows, board, Listing.Options(100, "", false)),
                      0, false, "", false, "", false)
    ensures Opened(None, role, env) == View(None, role, [], 0, true, "", false, "", false)
  {
    hide Listing.ListByBoard;
  }

  /** What the keys that move the cursor do while no search is typed. */
  lemma CursorKeysDo(v: View, env: Env, text: string)
    requires !v.searchActive && InRange(v)
    ensures v.cursor > 0 ==> Updated(v, env, KeyPressed(Up, text)) == v.(cursor := v.cursor - 1)
    ensures v.cursor == 0 ==> Updated(v, env, KeyPressed(Up, text)) == v
    ensures v.cursor + 1 < |v.articles| ==> Updated(v, env, KeyPressed(Down, text)) == v.(cursor := v.cursor + 1)
    ensures v.cursor + 1 >= |v.articles| ==> Updated(v, env, KeyPressed(Down, text)) == v
    ensures Updated(v, env, KeyPressed(Home, text)) == v.(cursor := 0)
    ensures v.articles != [] ==> Updated(v, env, KeyPressed(End, text)) == v.(cursor := |v.articles| - 1)
  {
    hide Reloaded, Searched;
  }

  /** What the other keys do while no search is typed. */
  lemma OtherKeysDo(v: View, env: Env, text: string)
    requires !v.searchActive
    ensures Updated(v, env, KeyPressed(Slash, text)) == v.(searchActive := true, typed := v.filter)
    ensures Updated(v, env, KeyPressed(Enter, text)) == v && Updated(v, env, KeyPressed(OtherKey, text)) == v
    ensures v.filter == "" ==> Updated(v, env, KeyPressed(Esc, text)) == v
    ensures !IsModerator(v.role) || v.articles == [] ==> Updated(v, env, KeyPressed(PinKey, text)) == v
  {
    hide Reloaded, Searched;
  }

  lemma EscapeDropsFilter(v: View, env: Env, text: string)
    requires !v.searchActive && v.filter != ""
    ensures Updated(v, env, KeyPressed(Esc, text)) == Reloaded(v.(filter := "", typed := "", cursor := 0), env, 0)
  {
    hide Reloaded;
  }

  predicate IsModerator(r: Forum.Role) { r == Forum.Mod || r == Forum.Admin }

  /** What makes the screen reload, and what the cursor follows then: nothing when an
      article was added, and otherwise the article that is highlighted. */
  lemma ReloadsDo(v: View, env: Env, text: string, board: int, id: int)
    requires v.board == Some(board) && IsHighlighted(v, id)
    ensures Updated(v, env, ArticleAdded(board)) == Reloaded(v, env, 0)
    ensures Updated(v, env, PinChanged(board)) == Reloaded(v, env, id)
    ensures Updated(v, env, ModeChanged(board)) == Reloaded(v, env, id)
    ensures !v.searchActive ==>
              Updated(v, env, KeyPressed(SortKey, text)) == Reloaded(v.(byScore := !v.byScore), env, id)
    ensures !v.searchActive && IsModerator(v.role) ==>
              Updated(v, env, KeyPressed(PinKey, text)) == if env.pinFails then v else Reloaded(v, env, id)
  {
    hide Reloaded, Searched;
  }

  /** While a search is typed every other key only changes the text. */
  lemma TypingDoes(v: View, env: Env, key: Key, text: string)
    requires v.searchActive && key != Enter && key != Esc
    ensures Updated(v, env, KeyPressed(key, text)) == v.(typed := text)
  {
  }

  /** What other boards do is none of this screen's business. */
  lemma OtherBoardsAreIgnored(v: View, env: Env, board: int)
    requires v.board != Some(board)
    ensures Updated(v, env, ArticleAdded(board)) == v
    ensures Updated(v, env, PinChanged(board)) == v && Updated(v, env, ModeChanged(board)) == v
  {
  }

  // ------------------------------------------------------------------- errors

  /** The screen queries the store: for a message about its board, at the end of a
      search, and for the keys that sort, pin and drop the filter. */
  predicate Queries(v: View, env: Env, msg: Msg) {
    v.board.Some? &&
    match msg
    case ArticleAdded(board) => v.board.value == board
    case PinChanged(board) => v.board.value == board
    case ModeChanged(board) => v.board.value == board
    case KeyPressed(key, _) =>
      if v.searchActive then key == Enter || key == Esc
      else key == SortKey || (key == Esc && v.filter != "")
           || (key == PinKey && IsModerator(v.role) && v.articles != [] && !env.pinFails)
  }

  /** Some query of the messages has failed. */
  predicate QueryFailed(v: View, msgs: seq<(Env, Msg)>)
    decreases |msgs|
  {
    msgs != [] &&
    var init, (env, msg) := msgs[..|msgs| - 1], msgs[|msgs| - 1];
    QueryFailed(v, init) || (env.listFails && Queries(Run(v, init), env, msg))
  }

  lemma ReloadErrs(v: View, env: Env, anchor: int)
    ensures var u := Reloaded(v, env, anchor);
      u.board == v.board && u.role == v.role && (u.loadErr <==> v.loadErr || (env.listFails && v.board.Some?))
  {
    hide Listed;
  }

  lemma SearchErrs(v: View, env: Env, typed: string, filter: string)
    ensures var u := Searched(v, env, typed, filter);
      u.board == v.board && u.role == v.role && (u.loadErr <==> v.loadErr || (env.listFails && v.board.Some?))
  {
    hide Reloaded;
    ReloadErrs(v.(typed := typed, filter := filter, searchActive := false, cursor := 0), env, 0);
  }

  lemma PressErrs(v: View, env: Env, key: Key, text: string)
    ensures var u := Pressed(v, env, key, text);
      && u.board == v.board && u.role == v.role
      && (u.loadErr <==> v.loadErr || (env.listFails && Queries(v, env, KeyPressed(key, text))))
  {
    hide Reloaded, Searched, TrimSpace;
    SearchErrs(v, env, v.typed, TrimSpace(v.typed));
    SearchErrs(v, env, "", "");
    ReloadErrs(v.(byScore := !v.byScore), env, AnchorOf(v));
    ReloadErrs(v, env, AnchorOf(v));
  }

  lemma StepErrs(v: View, env: Env, msg: Msg)
    ensures var u := Updated(v, env, msg);
      u.board == v.board && u.role == v.role && (u.loadErr <==> v.loadErr || (env.listFails && Queries(v, env, msg)))
  {
    match msg
    case KeyPressed(key, text) =>
      PressErrs(v, env, key, text);
      hide Pressed, Reloaded, Queries;
    case _ =>
      hide Pressed, Reloaded;
      ReloadErrs(v, env, 0);
      ReloadErrs(v, env, AnchorOf(v));
  }

  /** The comment above `reload` says that errors after the first load are silent,
      so that a failed refresh does not blank the screen.  The screen shows its
      list only while there is no error, and none is ever taken back: it is blank
      exactly when the first load failed or any later query has, whatever
      succeeded since. */
  lemma {:induction false} ErrorsStayExactly(v: View, msgs: seq<(Env, Msg)>)
    ensures Run(v, msgs).loadErr <==> v.loadErr || QueryFailed(v, msgs)
    decreases |msgs|
  {
    if msgs != [] {
      hide Updated, Queries;
      ErrorsStayExactly(v, msgs[..|msgs| - 1]);
      StepErrs(Run(v, msgs[..|msgs| - 1]), msgs[|msgs| - 1].0, msgs[|msgs| - 1].1);
    }
  }

  /** One refresh that fails, for an article added by somebody else, and a second
      that succeeds: the screen stays blank. */
  lemma OneFailureBlanksTheScreen(v: View, board: int, rows: seq<Article>)
    requires v.board == Some(board) && !v.loadErr
    ensures var failed := (Env(rows, true, false), ArticleAdded(board));
      var ok := (Env(rows, false, false), ArticleAdded(board));
      Run(v, [failed, ok]).loadErr
  {
    var failed, ok := (Env(rows, true, false), ArticleAdded(board)), (Env(rows, false, false), ArticleAdded(board));
    ErrorsStayExactly(v, [failed, ok]);
    assert [failed, ok][..1] == [failed] && [failed][..0] == [];
    assert QueryFailed(v, [failed]);
  }
}
