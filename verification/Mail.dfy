/** Threaded mail (internal/store/mail.go), statement by statement, with readers
    that may come between any two statements of a writer. */
module Mail {
  // `Insert` holds the write lock over statements that are each committed on
  // their own: the lookup of a reply's parent, the insert, the back-fill of
  // `thread_id`, and the read of the new row.  Readers take no lock.

  import opened Wrappers

  /** A row of `mail`.  Rows are never deleted, so a row's id is its position. */
  datatype Message = Message(
    thread: Option<int>, parent: Option<int>, from: int, to: int, subject: string, body: string, read: bool)

  /** `ScanError`: a missing `thread_id` cannot be scanned into an integer. */
  datatype Error = MailNotFound | ScanError | DatabaseError

  /** How far the holder of the write lock has come. */
  datatype Writer =
    | Free
    | Ready(from: int, to: int, subject: string, body: string, parent: Option<int>, thread: Option<int>)
    | Unfilled(id: nat)
    | Written(id: nat)

  datatype State = State(rows: seq<Message>, writer: Writer)

  const START := State([], Free)

  datatype Step =
    | Begin(from: int, to: int, subject: string, body: string, parent: Option<int>, fails: bool)
    | InsertRow(fails: bool)
    | Backfill(fails: bool)
    | Reread
    | Crash
    | MarkRead(id: int)
    | MarkAllReadFor(user: int)

  // -------------------------------------------------------------------- steps

  predicate InTable(rows: seq<Message>, id: int) { 0 <= id < |rows| }

  /** The error of the lookup that a reply begins with. */
  function LookupError(rows: seq<Message>, parent: Option<int>, fails: bool): Option<Error> {
    if parent.None? then None
    else if fails then Some(DatabaseError)
    else if !InTable(rows, parent.value) then Some(MailNotFound)
    else None
  }

  function BeginStep(s: State, from: int, to: int, subject: string, body: string, parent: Option<int>,
                     fails: bool): State {
    if s.writer != Free || LookupError(s.rows, parent, fails).Some? then s
    else
      var thread := if parent.Some? then s.rows[parent.value].thread else None;
      s.(writer := Ready(from, to, subject, body, parent, thread))
  }

  function InsertStep(s: State, fails: bool): State {
    if !s.writer.Ready? then s
    else if fails then s.(writer := Free)
    else
      var w, id := s.writer, |s.rows|;
      State(s.rows + [Message(w.thread, w.parent, w.from, w.to, w.subject, w.body, false)],
            if w.thread.None? then Unfilled(id) else Written(id))
  }

  function SetThread(rows: seq<Message>, id: nat): seq<Message> {
    if id < |rows| then rows[id := rows[id].(thread := Some(id))] else rows
  }

  function BackfillStep(s: State, fails: bool): State {
    if !s.writer.Unfilled? then s
    else if fails then s.(writer := Free)
    else State(SetThread(s.rows, s.writer.id), Written(s.writer.id))
  }

  function MarkOne(rows: seq<Message>, id: int): seq<Message> {
    if InTable(rows, id) then rows[id := rows[id].(read := true)] else rows
  }

  function MarkAll(rows: seq<Message>, user: int): (r: seq<Message>)
    ensures |r| == |rows|
    ensures forall i :: 0 <= i < |rows| ==> r[i] == if rows[i].to == user then rows[i].(read := true) else rows[i]
  {
    seq(|rows|, i requires 0 <= i < |rows| => if rows[i].to == user then rows[i].(read := true) else rows[i])
  }

  /** One step; a step that is not enabled, for want of the lock, leaves the state
      as it is.  A crash gives the lock back and keeps what was committed. */
  function Apply(s: State, a: Step): State {
    match a
    case Begin(from, to, subject, body, parent, fails) => BeginStep(s, from, to, subject, body, parent, fails)
    case InsertRow(fails) => InsertStep(s, fails)
    case Backfill(fails) => BackfillStep(s, fails)
    case Reread => if s.writer.Written? then s.(writer := Free) else s
    case Crash => s.(writer := Free)
    case MarkRead(id) => if s.writer == Free then s.(rows := MarkOne(s.rows, id)) else s
    case MarkAllReadFor(user) => if s.writer == Free then s.(rows := MarkAll(s.rows, user)) else s
  }

  function Run(steps: seq<Step>): State {
    if steps == [] then START else Apply(Run(steps[..|steps| - 1]), steps[|steps| - 1])
  }

  // -------------------------------------------------------------------- reads

  /** `GetByID` */
  function GetById(rows: seq<Message>, id: int): Result<Message, Error> {
    if !InTable(rows, id) then Err(MailNotFound)
    else if rows[id].thread.None? then Err(ScanError)
    else Ok(rows[id])
  }

  /** `SELECT ... WHERE thread_id = ? ORDER BY id ASC` over the rows below `n`. */
  function InThread(rows: seq<Message>, thread: int, n: nat): seq<nat>
    requires n <= |rows|
  {
    if n == 0 then []
    else InThread(rows, thread, n - 1) + if rows[n - 1].thread == Some(thread) then [n - 1] else []
  }

  predicate IsTo(m: Message, user: int, unread: bool) { m.to == user && m.read == !unread }

  /** The messages below `n` to `user` that are unread, or that are read, newest first. */
  function Newest(rows: seq<Message>, user: int, unread: bool, n: nat): seq<nat>
    requires n <= |rows|
  {
    if n == 0 then []
    else (if IsTo(rows[n - 1], user, unread) then [n - 1] else []) + Newest(rows, user, unread, n - 1)
  }

  function Clip(limit: int): nat { if limit <= 0 then 50 else limit }

  function Take(ids: seq<nat>, n: nat): seq<nat> { if |ids| <= n then ids else ids[..n] }

  /** The rows of `ListInboxFor`: unread first, each group newest first. */
  function Inbox(rows: seq<Message>, user: int, limit: int): seq<nat> {
    Take(Newest(rows, user, true, |rows|) + Newest(rows, user, false, |rows|), Clip(limit))
  }

  /** The scan over the rows of a query stops at the first without a thread. */
  function Scan(rows: seq<Message>, ids: seq<nat>): Result<seq<nat>, Error> {
    if ids == [] then Ok([])
    else
      var front, last := Scan(rows, ids[..|ids| - 1]), ids[|ids| - 1];
      if front.Err? then front
      else if last < |rows| && rows[last].thread.Some? then Ok(front.value + [last])
      else Err(ScanError)
  }

  function ReadInbox(rows: seq<Message>, user: int, limit: int): Result<seq<nat>, Error> {
    Scan(rows, Inbox(rows, user, limit))
  }

  // ------------------------------------------------------------ the repository

  class Mailbox {
    var rows: seq<Message>
    var writer: Writer

    function Contents(): State
      reads this
    {
      State(rows, writer)
    }

    constructor ()
      ensures Contents() == START
    {
      rows, writer := [], Free;
    }

    /** Takes the lock and, for a reply, looks up the thread of the parent. */
    method Begin(from: int, to: int, subject: string, body: string, parent: Option<int>, fails: bool)
      returns (r: Option<Error>)
      requires writer == Free
      modifies this
      ensures Contents() == Apply(old(Contents()), Step.Begin(from, to, subject, body, parent, fails))
      ensures r == LookupError(old(rows), parent, fails)
      ensures r.None? ==> writer.Ready?
    {
      var thread: Option<int> := None;
      if parent.Some? {
        if fails {
          return Some(DatabaseError);
        }
        if !InTable(rows, parent.value) {
          return Some(MailNotFound);
        }
        thread := rows[parent.value].thread;
      }
      writer := Ready(from, to, subject, body, parent, thread);
      return None;
    }

    method InsertRow(fails: bool) returns (ok: bool)
      requires writer.Ready?
      modifies this
      ensures Contents() == Apply(old(Contents()), Step.InsertRow(fails)) && ok == !fails
    {
      if fails {
        writer := Free;
        return false;
      }
      var id := |rows|;
      var w := writer;
      rows := rows + [Message(w.thread, w.parent, w.from, w.to, w.subject, w.body, false)];
      writer := if writer.thread.None? then Unfilled(id) else Written(id);
      return true;
    }

    method Backfill(fails: bool) returns (ok: bool)
      requires writer.Unfilled? && writer.id < |rows|
      modifies this
      ensures Contents() == Apply(old(Contents()), Step.Backfill(fails)) && ok == !fails
    {
      if fails {
        writer := Free;
        return false;
      }
      rows := rows[writer.id := rows[writer.id].(thread := Some(writer.id))];
      writer := Written(writer.id);
      return true;
    }

    /** The whole call, with no reader looked at in between. */
    method Insert(from: int, to: int, subject: string, body: string, parent: Option<int>,
                  lookupFails: bool, insertFails: bool, backfillFails: bool, rereadFails: bool)
      returns (r: Result<Message, Error>)
      requires writer == Free
      modifies this
      ensures rows == Inserted(old(rows), from, to, subject, body, parent, lookupFails, insertFails, backfillFails)
      ensures writer == Free
      ensures var e, id := LookupError(old(rows), parent, lookupFails), |old(rows)|;
        && (e.Some? ==> r == Err(e.value))
        && (e.None? ==>
              if insertFails || rereadFails || rows[id].thread.None? then r == Err(DatabaseError)
              else r.Ok? && r == GetById(rows, id))
    {
      var e := Begin(from, to, subject, body, parent, lookupFails);
      if e.Some? {
        return Err(e.value);
      }
      var ok := InsertRow(insertFails);
      if !ok {
        return Err(DatabaseError);
      }
      if writer.Unfilled? {
        ok := Backfill(backfillFails);
        if !ok {
          return Err(DatabaseError);
        }
      }
      r := if rereadFails then Err(DatabaseError) else Ok(rows[writer.id]);
      writer := Free;
    }

    method ListThread(thread: int) returns (out: seq<nat>)
      ensures out == InThread(rows, thread, |rows|)
    {
      out := [];
      for i := 0 to |rows|
        invariant out == InThread(rows, thread, i)
      {
        if rows[i].thread == Some(thread) {
          out := out + [i];
        }
      }
    }

    method ListInboxFor(user: int, limit: int) returns (r: Result<seq<nat>, Error>)
      ensures r == ReadInbox(rows, user, limit)
    {
      var ids := Inbox(rows, user, limit);
      InboxInTable(rows, user, limit);
      var out: seq<nat> := [];
      for i := 0 to |ids|
        invariant Scan(rows, ids[..i]) == Ok(out)
      {
        assert ids[..i + 1][..i] == ids[..i] && ids[i] in ids;
        if rows[ids[i]].thread.None? {
          ScanStops(rows, ids, i + 1);
          return Err(ScanError);
        }
        out := out + [ids[i]];
      }
      assert ids[..|ids|] == ids;
      return Ok(out);
    }
  }

  /** The table after a call of `Insert` that no other writer can disturb. */
  function Inserted(rows: seq<Message>, from: int, to: int, subject: string, body: string, parent: Option<int>,
                    lookupFails: bool, insertFails: bool, backfillFails: bool): seq<Message>
  {
    if LookupError(rows, parent, lookupFails).Some? || insertFails then rows
    else
      var joined := if parent.Some? && InTable(rows, parent.value) then rows[parent.value].thread else None;
      var thread := if joined.None? && !backfillFails then Some(|rows|) else joined;
      rows + [Message(thread, parent, from, to, subject, body, false)]
  }

  lemma {:induction false} ScanStops(rows: seq<Message>, ids: seq<nat>, n: nat)
    requires n <= |ids| && Scan(rows, ids[..n]).Err?
    ensures Scan(rows, ids) == Err(ScanError)
    decreases |ids|
  {
    if n < |ids| {
      assert ids[..|ids| - 1][..n] == ids[..n];
      ScanStops(rows, ids[..|ids| - 1], n);
    } else {
      assert ids[..n] == ids;
      ScanIs(rows, ids);
    }
  }

  ghost predicate AllScan(rows: seq<Message>, ids: seq<nat>) {
    forall i :: i in ids ==> i < |rows| && rows[i].thread.Some?
  }

  lemma {:induction false} ScanIs(rows: seq<Message>, ids: seq<nat>)
    ensures Scan(rows, ids) == if AllScan(rows, ids) then Ok(ids) else Err(ScanError)
  {
    if ids != [] {
      var front, last := ids[..|ids| - 1], ids[|ids| - 1];
      ScanIs(rows, front);
      assert ids == front + [last];
      AllScanSplits(rows, front, last);
    }
  }

  lemma AllScanSplits(rows: seq<Message>, front: seq<nat>, last: nat)
    ensures AllScan(rows, front + [last]) <==> AllScan(rows, front) && last < |rows| && rows[last].thread.Some?
  {
    var ids := front + [last];
    assert ids[|front|] == last && forall i :: i in front ==> i in ids;
  }

  lemma {:induction false} NewestIs(rows: seq<Message>, user: int, unread: bool, n: nat)
    requires n <= |rows|
    ensures forall i: nat :: i in Newest(rows, user, unread, n) <==> i < n && IsTo(rows[i], user, unread)
  {
    if n > 0 {
      NewestIs(rows, user, unread, n - 1);
    }
  }

  lemma InboxInTable(rows: seq<Message>, user: int, limit: int)
    ensures forall i :: i in Inbox(rows, user, limit) ==> i < |rows| && rows[i].to == user
  {
    NewestIs(rows, user, true, |rows|);
    NewestIs(rows, user, false, |rows|);
    var all := Newest(rows, user, true, |rows|) + Newest(rows, user, false, |rows|);
    assert forall i :: i in Take(all, Clip(limit)) ==> i in all;
  }

  lemma {:induction false} InThreadIs(rows: seq<Message>, thread: int, n: nat)
    requires n <= |rows|
    ensures forall i: nat :: i in InThread(rows, thread, n) <==> i < n && rows[i].thread == Some(thread)
    ensures forall i, j :: 0 <= i < j < |InThread(rows, thread, n)| ==>
              InThread(rows, thread, n)[i] < InThread(rows, thread, n)[j]
  {
    if n > 0 {
      InThreadIs(rows, thread, n - 1);
      var xs := InThread(rows, thread, n - 1);
      forall i | 0 <= i < |xs| ensures xs[i] < n - 1 {
        assert xs[i] in xs;
      }
    }
  }

  /** The call is the steps of its writer, taken without a pause. */
  lemma InsertIsItsSteps(s: State, from: int, to: int, subject: string, body: string, parent: Option<int>,
                         lookupFails: bool, insertFails: bool, backfillFails: bool)
    requires s.writer == Free
    ensures var t := Apply(Apply(Apply(Apply(s, Begin(from, to, subject, body, parent, lookupFails)),
                                       InsertRow(insertFails)), Backfill(backfillFails)), Reread);
      && t.rows == Inserted(s.rows, from, to, subject, body, parent, lookupFails, insertFails, backfillFails)
      && t.writer == Free
  {
  }

  // ------------------------------------------------------ what the steps are for

  /** A call that nothing disturbs adds one row with what it was given, unread, in
      the thread of its parent, or in its own where there is none to join; no
      other row changes. */
  lemma InsertsWhatItWasGiven(s: State, from: int, to: int, subject: string, body: string, parent: Option<int>)
    requires s.writer == Free && (parent.Some? ==> InTable(s.rows, parent.value))
    ensures var t := Apply(Apply(Apply(Apply(s, Begin(from, to, subject, body, parent, false)),
                                       InsertRow(false)), Backfill(false)), Reread);
      var id := |s.rows|;
      && t.writer == Free && |t.rows| == id + 1 && t.rows[..id] == s.rows
      && t.rows[id].from == from && t.rows[id].to == to && t.rows[id].subject == subject && t.rows[id].body == body
      && t.rows[id].parent == parent && !t.rows[id].read
      && (parent.Some? && s.rows[parent.value].thread.Some? ==> t.rows[id].thread == s.rows[parent.value].thread)
      && (parent.None? || s.rows[parent.value].thread.None? ==> t.rows[id].thread == Some(id))
  {
    InsertIsItsSteps(s, from, to, subject, body, parent, false, false, false);
  }

  /** What a lookup by id and the lookup of a parent find: a row that is there, with
      a thread; and which error says what else is the case. */
  lemma LookupsExactly(rows: seq<Message>, id: int)
    ensures GetById(rows, id) == Err(MailNotFound) <==> id < 0 || id >= |rows|
    ensures GetById(rows, id) == Err(ScanError) <==> 0 <= id < |rows| && rows[id].thread == None
    ensures 0 <= id < |rows| && rows[id].thread.Some? ==> GetById(rows, id) == Ok(rows[id])
    ensures LookupError(rows, Some(id), true) == Some(DatabaseError)
    ensures LookupError(rows, Some(id), false) == if 0 <= id < |rows| then None else Some(MailNotFound)
    ensures forall fails :: LookupError(rows, None, fails) == None
  {
  }

  /** Marks change nothing but whether rows are read, and wait for the lock; what
      ends a call gives the lock back and leaves every row as it is. */
  lemma MarksAndEnds(s: State, id: int, user: int)
    ensures var t := Apply(s, MarkRead(id));
      && t == s.(rows := t.rows) && |t.rows| == |s.rows|
      && forall i :: 0 <= i < |s.rows| ==>
           t.rows[i] == if i == id && s.writer == Free then s.rows[i].(read := true) else s.rows[i]
    ensures var t := Apply(s, MarkAllReadFor(user));
      && t == s.(rows := t.rows) && |t.rows| == |s.rows|
      && forall i :: 0 <= i < |s.rows| ==>
           t.rows[i] == if s.rows[i].to == user && s.writer == Free then s.rows[i].(read := true) else s.rows[i]
    ensures Apply(s, Crash) == State(s.rows, Free)
    ensures s.writer.Written? ==> Apply(s, Reread) == State(s.rows, Free)
    ensures s.writer.Unfilled? ==> Apply(s, Backfill(true)) == State(s.rows, Free)
    ensures s.writer.Ready? ==> Apply(s, InsertRow(true)) == State(s.rows, Free)
  {
  }

  // -------------------------------------------------------------- invariants

  /** The message joined the thread of its parent. */
  predicate Inherits(rows: seq<Message>, i: nat) {
    i < |rows| && rows[i].parent.Some? && InTable(rows, rows[i].parent.value) && rows[rows[i].parent.value].thread.Some?
  }

  /** Parents are older, and a message is in no thread, in its parent's, or, when
      its parent is in none, in its own. */
  predicate WellThreaded(rows: seq<Message>, i: nat) {
    i < |rows| ==>
      && (rows[i].parent.Some? ==> 0 <= rows[i].parent.value < i)
      && (if Inherits(rows, i) then rows[i].thread == rows[rows[i].parent.value].thread
          else rows[i].thread.Some? ==> rows[i].thread.value == i)
  }

  ghost predicate Inv(rows: seq<Message>) { forall i: nat :: WellThreaded(rows, i) }

  /** The writer's view of its parent is current, and an unfilled row is the last
      one and has nothing to inherit. */
  predicate WriterInv(s: State) {
    match s.writer
    case Ready(_, _, _, _, parent, thread) =>
      if parent.Some? then InTable(s.rows, parent.value) && thread == s.rows[parent.value].thread else thread.None?
    case Unfilled(id) => id + 1 == |s.rows| && s.rows[id].thread.None? && !Inherits(s.rows, id)
    case _ => true
  }

  lemma ApplyKeepsWriterInv(s: State, a: Step)
    requires Inv(s.rows) && WriterInv(s)
    ensures WriterInv(Apply(s, a))
  {
  }

  lemma ApplyKeepsInv(s: State, a: Step)
    requires Inv(s.rows) && WriterInv(s)
    ensures Inv(Apply(s, a).rows)
  {
    var after := Apply(s, a).rows;
    forall i: nat ensures WellThreaded(after, i) {
      assert WellThreaded(s.rows, i);
    }
  }

  lemma {:induction false} RunKeepsInv(steps: seq<Step>)
    ensures Inv(Run(steps).rows) && WriterInv(Run(steps))
  {
    if steps != [] {
      hide Apply, Inv, WriterInv;
      RunKeepsInv(steps[..|steps| - 1]);
      ApplyKeepsInv(Run(steps[..|steps| - 1]), steps[|steps| - 1]);
      ApplyKeepsWriterInv(Run(steps[..|steps| - 1]), steps[|steps| - 1]);
    } else {
      StartInv();
    }
  }

  lemma StartInv()
    ensures Inv(START.rows) && WriterInv(START)
  {
  }

  // --------------------------------------------------- which rows have no thread

  /** Some step of the run has committed the back-fill of row `i`. */
  predicate Backfilled(steps: seq<Step>, i: nat) {
    steps != [] &&
      var before, a := Run(steps[..|steps| - 1]), steps[|steps| - 1];
      Backfilled(steps[..|steps| - 1], i) || (a == Backfill(false) && before.writer == Unfilled(i))
  }

  /** How one step changes what a row inherits and whether it has a thread. */
  lemma StepThreads(s: State, a: Step, i: nat)
    requires Inv(s.rows) && WriterInv(s)
    ensures var t := Apply(s, a);
      && |s.rows| <= |t.rows|
      && (i < |s.rows| ==>
            && Inherits(t.rows, i) == Inherits(s.rows, i)
            && (t.rows[i].thread.Some? <==>
                  s.rows[i].thread.Some? || (a == Backfill(false) && s.writer == Unfilled(i))))
      && (|s.rows| <= i < |t.rows| ==> (t.rows[i].thread.Some? <==> Inherits(t.rows, i)))
  {
    assert WellThreaded(s.rows, i);
    assert |s.rows| > 0 ==> WellThreaded(s.rows, |s.rows| - 1);
  }

  /** The rows without a thread, in every reachable state: exactly those that had
      no thread to inherit and whose back-fill has not committed, be it that it
      is still to come, has failed, or was cut off by a crash. */
  lemma {:induction false} MissingExactly(steps: seq<Step>, i: nat)
    ensures Backfilled(steps, i) ==> i < |Run(steps).rows|
    ensures i < |Run(steps).rows| ==>
              (Run(steps).rows[i].thread.None? <==> !Inherits(Run(steps).rows, i) && !Backfilled(steps, i))
  {
    if steps != [] {
      var init := steps[..|steps| - 1];
      MissingExactly(init, i);
      RunKeepsInv(init);
      StepThreads(Run(init), steps[|steps| - 1], i);
      hide Apply, Inv, Inherits;
    }
  }

  // ------------------------------------------------------------- root threads

  /** Following parents strictly decreases the id, so it ends at a root. */
  function Root(rows: seq<Message>, i: nat): (r: nat)
    requires Inv(rows) && i < |rows|
    ensures r <= i && rows[r].parent.None?
  {
    assert WellThreaded(rows, i);
    if rows[i].parent.None? then i else Root(rows, rows[i].parent.value)
  }

  predicate Descends(rows: seq<Message>, i: nat, ancestor: nat)
    requires Inv(rows) && i < |rows|
  {
    assert WellThreaded(rows, i);
    i == ancestor || (rows[i].parent.Some? && Descends(rows, rows[i].parent.value, ancestor))
  }

  /** Every message above `i` is in a thread. */
  predicate AncestorsThreaded(rows: seq<Message>, i: nat)
    requires Inv(rows) && i < |rows|
  {
    assert WellThreaded(rows, i);
    rows[i].parent.Some? ==>
      rows[rows[i].parent.value].thread.Some? && AncestorsThreaded(rows, rows[i].parent.value)
  }

  /** A message is in the thread of its root exactly when it is in a thread at
      all and so is every message above it; otherwise its thread is a later one. */
  lemma {:induction false} ThreadIsRootExactly(rows: seq<Message>, i: nat)
    requires Inv(rows) && i < |rows|
    ensures rows[i].thread == Some(Root(rows, i)) <==> rows[i].thread.Some? && AncestorsThreaded(rows, i)
    ensures rows[i].thread.Some? ==> rows[i].thread.value >= Root(rows, i)
  {
    assert WellThreaded(rows, i);
    if rows[i].parent.Some? {
      ThreadIsRootExactly(rows, rows[i].parent.value);
    }
  }

  lemma {:induction false} RootIsAncestor(rows: seq<Message>, i: nat, root: nat)
    requires Inv(rows) && i < |rows| && root < |rows| && rows[root].parent.None?
    ensures Root(rows, i) == root <==> Descends(rows, i, root)
  {
    assert WellThreaded(rows, i);
    if rows[i].parent.Some? {
      RootIsAncestor(rows, rows[i].parent.value, root);
    }
  }

  ghost predicate AllThreaded(rows: seq<Message>) { forall i :: 0 <= i < |rows| ==> rows[i].thread.Some? }

  lemma {:induction false} AllAncestorsThreaded(rows: seq<Message>, i: nat)
    requires Inv(rows) && AllThreaded(rows) && i < |rows|
    ensures AncestorsThreaded(rows, i)
  {
    assert WellThreaded(rows, i);
    if rows[i].parent.Some? {
      AllAncestorsThreaded(rows, rows[i].parent.value);
    }
  }

  lemma ThreadIsRoot(rows: seq<Message>, t: int, i: nat)
    requires Inv(rows) && AllThreaded(rows) && i < |rows|
    ensures i in InThread(rows, t, |rows|) <==> Root(rows, i) == t
  {
    InThreadIs(rows, t, |rows|);
    AllAncestorsThreaded(rows, i);
    ThreadIsRootExactly(rows, i);
  }

  /** With every message in a thread, the thread of a root is exactly the root and
      all that descends from it, oldest first and the root in front. */
  lemma ThreadIsTheTree(rows: seq<Message>, t: nat)
    requires Inv(rows) && AllThreaded(rows) && t < |rows| && rows[t].parent.None?
    ensures var out := InThread(rows, t, |rows|);
      && (forall i, j :: 0 <= i < j < |out| ==> out[i] < out[j])
      && out != [] && out[0] == t
      && forall i: nat :: i in out <==> i < |rows| && Descends(rows, i, t)
  {
    hide InThread, Root, Descends;
    var out := InThread(rows, t, |rows|);
    InThreadIs(rows, t, |rows|);
    forall i: nat | i < |rows| ensures i in out <==> Descends(rows, i, t) {
      ThreadIsRoot(rows, t, i);
      RootIsAncestor(rows, i, t);
    }
    RootOfRoot(rows, t);
    ThreadIsRoot(rows, t, t);
    assert out[0] in out;
    ThreadIsRoot(rows, t, out[0]);
  }

  lemma RootOfRoot(rows: seq<Message>, t: nat)
    requires Inv(rows) && t < |rows| && rows[t].parent.None?
    ensures Root(rows, t) == t
  {
  }

  /** A message that is no root has no thread of its own. */
  lemma RepliesOpenNoThread(rows: seq<Message>, t: nat)
    requires Inv(rows) && AllThreaded(rows) && t < |rows| && rows[t].parent.Some?
    ensures InThread(rows, t, |rows|) == []
  {
    var out := InThread(rows, t, |rows|);
    InThreadIs(rows, t, |rows|);
    if out != [] {
      assert out[0] in out;
      ThreadIsRoot(rows, t, out[0]);
      assert false;
    }
  }

  /** Every message is in a thread exactly when the back-fill of every root has
      committed. */
  lemma RunsAreThreaded(steps: seq<Step>)
    ensures var rows := Run(steps).rows;
      AllThreaded(rows) <==> forall i: nat :: i < |rows| && rows[i].parent.None? ==> Backfilled(steps, i)
  {
    var rows := Run(steps).rows;
    RunKeepsInv(steps);
    forall i: nat | i < |rows| && rows[i].parent.None? ensures rows[i].thread.Some? <==> Backfilled(steps, i) {
      MissingExactly(steps, i);
    }
    if forall i: nat :: i < |rows| && rows[i].parent.None? ==> Backfilled(steps, i) {
      forall i: nat | i < |rows| ensures rows[i].thread.Some? {
        ThreadedFromRoot(rows, i);
      }
    }
  }

  lemma {:induction false} ThreadedFromRoot(rows: seq<Message>, i: nat)
    requires Inv(rows) && i < |rows|
    requires forall r: nat :: r < |rows| && rows[r].parent.None? ==> rows[r].thread.Some?
    ensures rows[i].thread.Some?
  {
    assert WellThreaded(rows, i);
    if rows[i].parent.Some? {
      ThreadedFromRoot(rows, rows[i].parent.value);
    }
  }

  /** Every reply of the run answers a message that can be read when the reply
      begins; the screens know a message to answer only from such a read, and
      what could once be read always can. */
  ghost predicate AnswersReadable(steps: seq<Step>) {
    steps != [] ==>
      && AnswersReadable(steps[..|steps| - 1])
      && (steps[|steps| - 1].Begin? && steps[|steps| - 1].parent.Some? ==>
            GetById(Run(steps[..|steps| - 1]).rows, steps[|steps| - 1].parent.value).Ok?)
  }

  /** Where replies answer messages that were read, a reply is always in the
      thread of its root; only roots can be without a thread. */
  lemma AnsweredThreadsAreRoots(steps: seq<Step>, i: nat)
    requires AnswersReadable(steps) && i < |Run(steps).rows|
    ensures var rows := Run(steps).rows;
      && Inv(rows)
      && (rows[i].thread.None? ==> rows[i].parent.None?)
      && (rows[i].thread.Some? ==> rows[i].thread == Some(Root(rows, i)))
  {
    var rows := Run(steps).rows;
    RunKeepsInv(steps);
    ParentsStayThreaded(steps);
    assert ParentThreaded(rows, i) && WellThreaded(rows, i);
    ThreadIsRootExactly(rows, i);
    AncestorsOfThreaded(rows, i);
  }

  predicate ParentThreaded(rows: seq<Message>, i: nat) {
    i < |rows| && rows[i].parent.Some? ==>
      InTable(rows, rows[i].parent.value) && rows[rows[i].parent.value].thread.Some?
  }

  lemma {:induction false} ParentsStayThreaded(steps: seq<Step>)
    requires AnswersReadable(steps)
    ensures forall i: nat :: ParentThreaded(Run(steps).rows, i)
    ensures Run(steps).writer.Ready? && Run(steps).writer.parent.Some? ==> Run(steps).writer.thread.Some?
  {
    if steps != [] {
      var init, a := steps[..|steps| - 1], steps[|steps| - 1];
      ParentsStayThreaded(init);
      RunKeepsInv(init);
      forall i: nat ensures ParentThreaded(Run(steps).rows, i) {
        assert ParentThreaded(Run(init).rows, i);
      }
    }
  }

  lemma {:induction false} AncestorsOfThreaded(rows: seq<Message>, i: nat)
    requires Inv(rows) && i < |rows| && forall j: nat :: ParentThreaded(rows, j)
    ensures AncestorsThreaded(rows, i)
  {
    assert WellThreaded(rows, i) && ParentThreaded(rows, i);
    if rows[i].parent.Some? {
      AncestorsOfThreaded(rows, rows[i].parent.value);
    }
  }

  // --------------------------------------------------------------- inbox reads

  /** How many messages from `lo` below `n` to `user` are unread, or are read. */
  function CountTo(rows: seq<Message>, user: int, unread: bool, lo: nat, n: nat): nat
    requires n <= |rows|
  {
    if n <= lo then 0
    else CountTo(rows, user, unread, lo, n - 1) + if IsTo(rows[n - 1], user, unread) then 1 else 0
  }

  /** How many messages the inbox of its recipient shows before message `i`. */
  function Ahead(rows: seq<Message>, i: nat): nat
    requires i < |rows|
  {
    var user := rows[i].to;
    if rows[i].read then CountTo(rows, user, true, 0, |rows|) + CountTo(rows, user, false, i + 1, |rows|)
    else CountTo(rows, user, true, i + 1, |rows|)
  }

  lemma {:induction false} NewestLength(rows: seq<Message>, user: int, unread: bool, n: nat)
    requires n <= |rows|
    ensures |Newest(rows, user, unread, n)| == CountTo(rows, user, unread, 0, n)
    ensures Descending(Newest(rows, user, unread, n))
  {
    if n > 0 {
      hide IsTo;
      NewestStep(rows, user, unread, n);
      NewestLength(rows, user, unread, n - 1);
      NewestIs(rows, user, unread, n - 1);
      OnTop(n - 1, Newest(rows, user, unread, n - 1));
    }
  }

  ghost predicate Descending(xs: seq<nat>) { forall i, j :: 0 <= i < j < |xs| ==> xs[i] > xs[j] }

  lemma OnTop(x: nat, xs: seq<nat>)
    requires Descending(xs) && forall y :: y in xs ==> y < x
    ensures Descending([x] + xs)
  {
    assert forall j :: 0 <= j < |xs| ==> xs[j] in xs;
  }

  predicate StandsAt(xs: seq<nat>, p: nat, i: nat) { p < |xs| && xs[p] == i }

  lemma StandsBehind(x: nat, xs: seq<nat>, p: nat, i: nat)
    requires StandsAt(xs, p, i)
    ensures StandsAt([x] + xs, p + 1, i)
  {
  }

  lemma CountStep(rows: seq<Message>, user: int, unread: bool, lo: nat, n: nat)
    requires 0 < n <= |rows|
    ensures CountTo(rows, user, unread, lo, n)
         == if n <= lo then 0
            else CountTo(rows, user, unread, lo, n - 1) + if IsTo(rows[n - 1], user, unread) then 1 else 0
  {
  }

  lemma StandsFirst(x: nat, xs: seq<nat>)
    ensures StandsAt([x] + xs, 0, x)
  {
  }

  lemma {:induction false} NewestAt(rows: seq<Message>, user: int, unread: bool, i: nat, n: nat)
    requires i < n <= |rows| && IsTo(rows[i], user, unread)
    ensures StandsAt(Newest(rows, user, unread, n), CountTo(rows, user, unread, i + 1, n), i)
  {
    hide *;
    NewestStep(rows, user, unread, n);
    CountStep(rows, user, unread, i + 1, n);
    var xs := Newest(rows, user, unread, n - 1);
    if i == n - 1 {
      StandsFirst(i, xs);
    } else {
      NewestAt(rows, user, unread, i, n - 1);
      if IsTo(rows[n - 1], user, unread) {
        StandsBehind(n - 1, xs, CountTo(rows, user, unread, i + 1, n - 1), i);
      }
    }
  }

  /** The list grows at the front. */
  lemma NewestStep(rows: seq<Message>, user: int, unread: bool, n: nat)
    requires 0 < n <= |rows|
    ensures Newest(rows, user, unread, n)
         == if IsTo(rows[n - 1], user, unread) then [n - 1] + Newest(rows, user, unread, n - 1)
            else Newest(rows, user, unread, n - 1)
  {
    assert [] + Newest(rows, user, unread, n - 1) == Newest(rows, user, unread, n - 1);
  }

  /** A message is listed exactly when fewer than the limit come before it. */
  lemma ListedExactly(rows: seq<Message>, i: nat, limit: int)
    requires i < |rows|
    ensures i in Inbox(rows, rows[i].to, limit) <==> Ahead(rows, i) < Clip(limit)
  {
    var user := rows[i].to;
    var xs, ys := Newest(rows, user, true, |rows|), Newest(rows, user, false, |rows|);
    NewestLength(rows, user, true, |rows|);
    NewestLength(rows, user, false, |rows|);
    NewestIs(rows, user, true, |rows|);
    NewestIs(rows, user, false, |rows|);
    NewestAt(rows, user, !rows[i].read, i, |rows|);
    OnlyAt(xs, ys, i, Ahead(rows, i), Clip(limit));
  }

  lemma OnlyAt(xs: seq<nat>, ys: seq<nat>, i: nat, p: nat, n: nat)
    requires Descending(xs) && Descending(ys)
    requires i !in xs || i !in ys
    requires p < |xs + ys| && (xs + ys)[p] == i
    ensures i in Take(xs + ys, n) <==> p < n
  {
    var all := xs + ys;
    assert p < |xs| ==> xs[p] in xs;
    assert p >= |xs| ==> ys[p - |xs|] in ys;
    forall q | 0 <= q < |all| && all[q] == i ensures q == p {
      assert q < |xs| ==> xs[q] in xs;
      assert q >= |xs| ==> ys[q - |xs|] in ys;
    }
    if p < n {
      assert Take(all, n)[p] == i;
    }
  }

  /** Message `i` is shown before message `j`: unread ones first, then the newer. */
  predicate ShownBefore(rows: seq<Message>, i: nat, j: nat) {
    i < |rows| && j < |rows| && if rows[i].read != rows[j].read then !rows[i].read else i > j
  }

  lemma PartOf(xs: seq<nat>, ys: seq<nat>, p: nat)
    requires p < |xs + ys|
    ensures if p < |xs| then (xs + ys)[p] == xs[p] && xs[p] in xs
            else (xs + ys)[p] == ys[p - |xs|] && ys[p - |xs|] in ys
  {
  }

  lemma AllInOrder(rows: seq<Message>, user: int)
    ensures var all := Newest(rows, user, true, |rows|) + Newest(rows, user, false, |rows|);
      && (forall p, q :: 0 <= p < q < |all| ==> ShownBefore(rows, all[p], all[q]))
      && (forall i: nat :: i in all <==> i < |rows| && rows[i].to == user)
  {
    var xs, ys := Newest(rows, user, true, |rows|), Newest(rows, user, false, |rows|);
    NewestLength(rows, user, true, |rows|);
    NewestLength(rows, user, false, |rows|);
    NewestIs(rows, user, true, |rows|);
    NewestIs(rows, user, false, |rows|);
    hide Newest, CountTo;
    var all := xs + ys;
    forall p, q | 0 <= p < q < |all| ensures ShownBefore(rows, all[p], all[q]) {
      PartOf(xs, ys, p);
      PartOf(xs, ys, q);
    }
  }

  lemma LeftOut(all: seq<nat>, n: nat, i: nat)
    requires i in all && i !in Take(all, n)
    ensures |Take(all, n)| == n && exists q :: n <= q < |all| && all[q] == i
  {
    assert all == Take(all, n) + all[|Take(all, n)|..];
    var q :| 0 <= q < |all[|Take(all, n)|..]| && all[|Take(all, n)|..][q] == i;
    assert all[|Take(all, n)| + q] == i;
  }

  /** The inbox: messages to the user, each shown before those behind it, and one
      that is left out would come after all that are shown, which then are as
      many as the limit, 50 when none is given. */
  lemma InboxIsExact(rows: seq<Message>, user: int, limit: int)
    ensures var out, n := Inbox(rows, user, limit), if limit <= 0 then 50 else limit;
      && |out| <= n
      && (forall p, q :: 0 <= p < q < |out| ==> ShownBefore(rows, out[p], out[q]))
      && (forall i :: i in out ==> i < |rows| && rows[i].to == user)
      && (forall i: nat :: i < |rows| && rows[i].to == user && i !in out ==>
            |out| == n && forall j :: j in out ==> ShownBefore(rows, j, i))
  {
    AllInOrder(rows, user);
    hide Newest, ShownBefore;
    var all := Newest(rows, user, true, |rows|) + Newest(rows, user, false, |rows|);
    var out := Inbox(rows, user, limit);
    forall i: nat | i in all && i !in out
      ensures |out| == Clip(limit) && forall j :: j in out ==> ShownBefore(rows, j, i)
    {
      LeftOut(all, Clip(limit), i);
    }
    assert forall i :: i in out ==> i in all;
  }

  /** Loading an inbox succeeds exactly when no message to the user without a
      thread is among those it would list. */
  lemma InboxReadsExactly(rows: seq<Message>, user: int, limit: int)
    ensures ReadInbox(rows, user, limit).Ok? <==>
              forall i: nat :: i < |rows| && rows[i].to == user && rows[i].thread.None? ==>
                Ahead(rows, i) >= Clip(limit)
    ensures ReadInbox(rows, user, limit).Ok? ==> ReadInbox(rows, user, limit).value == Inbox(rows, user, limit)
  {
    hide Inbox, Ahead;
    var ids := Inbox(rows, user, limit);
    ScanIs(rows, ids);
    InboxInTable(rows, user, limit);
    forall i: nat | i < |rows| && rows[i].to == user ensures i in ids <==> Ahead(rows, i) < Clip(limit) {
      ListedExactly(rows, i, limit);
    }
  }

  /** A message that would be listed, inherited no thread, and whose back-fill has
      not committed. */
  predicate Blocks(steps: seq<Step>, user: int, limit: int, i: nat) {
    var rows := Run(steps).rows;
    i < |rows| && rows[i].to == user && Ahead(rows, i) < Clip(limit) && !Inherits(rows, i) && !Backfilled(steps, i)
  }

  /** Over runs: an inbox fails to load exactly when some message blocks it. */
  lemma InboxFailsExactly(steps: seq<Step>, user: int, limit: int)
    ensures ReadInbox(Run(steps).rows, user, limit).Err? <==> exists i: nat :: Blocks(steps, user, limit, i)
  {
    hide ReadInbox, Ahead, Inherits, Run, Backfilled;
    var rows := Run(steps).rows;
    InboxReadsExactly(rows, user, limit);
    forall i: nat | i < |rows| ensures rows[i].thread.None? <==> !Inherits(rows, i) && !Backfilled(steps, i) {
      MissingExactly(steps, i);
    }
    if i: nat :| i < |rows| && rows[i].to == user && rows[i].thread.None? && Ahead(rows, i) < Clip(limit) {
      assert Blocks(steps, user, limit, i);
    }
  }

  // ------------------------------------------------------------------- inputs

  /** A row whose back-fill was given up stays without a thread whatever follows. */
  lemma {:induction false} GivenUpStaysMissing(steps: seq<Step>, more: seq<Step>, i: nat)
    requires i < |Run(steps).rows| && Run(steps).rows[i].thread.None? && Run(steps).writer != Unfilled(i)
    ensures var t := Run(steps + more);
      i < |t.rows| && t.rows[i].thread.None? && t.writer != Unfilled(i)
    decreases |more|
  {
    if more == [] {
      assert steps + more == steps;
    } else {
      var n := |more| - 1;
      assert (steps + more)[..|steps| + n] == steps + more[..n];
      GivenUpStaysMissing(steps, more[..n], i);
      RunKeepsInv(steps + more[..n]);
      StepThreads(Run(steps + more[..n]), more[n], i);
      NewUnfilledIsNew(Run(steps + more[..n]), more[n], i);
      hide Apply;
    }
  }

  lemma NewUnfilledIsNew(s: State, a: Step, i: nat)
    requires i < |s.rows| && s.writer != Unfilled(i)
    ensures Apply(s, a).writer != Unfilled(i)
  {
  }

  lemma RunNext(steps: seq<Step>, a: Step)
    ensures Run(steps + [a]) == Apply(Run(steps), a)
  {
    assert (steps + [a])[..|steps|] == steps;
  }

  const ROOT := Message(None, None, 1, 2, "", "", false)

  /** The first two steps of a root's `Insert`, with nothing failing. */
  function FirstTwo(): seq<Step> { [Begin(1, 2, "", "", None, false)] + [InsertRow(false)] }

  lemma AfterTwo()
    ensures Run(FirstTwo()) == State([ROOT], Unfilled(0))
  {
    var first := Begin(1, 2, "", "", None, false);
    RunNext([], first);
    assert [] + [first] == [first];
    RunNext([first], InsertRow(false));
  }

  /** The comment above `Insert` promises a thread for every message that is read.
      Reads take no lock: one between the insert and the back-fill finds a row
      without a thread although nothing has failed, and both the recipient's
      inbox and the lookup by id then fail; after the back-fill both succeed. */
  lemma ReadBetweenStatementsFails()
    ensures var before, after := Run(FirstTwo()).rows, Run(FirstTwo() + [Backfill(false)]).rows;
      && GetById(before, 0) == Err(ScanError) && ReadInbox(before, 2, 100) == Err(ScanError)
      && GetById(after, 0).Ok? && ReadInbox(after, 2, 100) == Ok([0])
  {
    AfterTwo();
    RunNext(FirstTwo(), Backfill(false));
    OneRowInbox(ROOT);
    OneRowInbox(ROOT.(thread := Some(0)));
  }

  lemma OneRowInbox(m: Message)
    requires m.to == 2 && !m.read
    ensures ReadInbox([m], 2, 100) == if m.thread.Some? then Ok([0]) else Err(ScanError)
  {
    var rows := [m];
    assert Newest(rows, 2, true, 0) == [] && Newest(rows, 2, false, 0) == [];
    assert Newest(rows, 2, true, 1) == [0] && Newest(rows, 2, false, 1) == [];
    assert Inbox(rows, 2, 100) == [0];
    ScanIs(rows, [0]);
    assert AllScan(rows, [0]) <==> m.thread.Some? by {
      assert 0 in [0];
    }
  }

  /** A back-fill that fails leaves the row without a thread, and a caller of the
      store that answers it all the same opens a thread of its own. */
  lemma FailedBackfillSplitsThread()
    ensures var given := FirstTwo() + [Backfill(true)];
      var answered := given + [Begin(2, 1, "", "", Some(0), false)] + [InsertRow(false)] + [Backfill(false)];
      && Run(given).writer == Free && GetById(Run(given).rows, 0) == Err(ScanError)
      && Run(answered).rows == [ROOT, Message(Some(1), Some(0), 2, 1, "", "", false)]
  {
    AfterTwo();
    var given := FirstTwo() + [Backfill(true)];
    RunNext(FirstTwo(), Backfill(true));
    var begun := given + [Begin(2, 1, "", "", Some(0), false)];
    RunNext(given, Begin(2, 1, "", "", Some(0), false));
    RunNext(begun, InsertRow(false));
    RunNext(begun + [InsertRow(false)], Backfill(false));
  }
}
