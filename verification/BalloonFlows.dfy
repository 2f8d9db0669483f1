/** The flows that send and replay water balloons, undisturbed, statement by
    statement (internal/tui/screen_wb.go, internal/server/server.go), and how
    they are made of the steps of the delivery protocol. */
module BalloonFlows {
  import opened Wrappers
  import opened WaterBalloons
  import Broker
  import Delivery

  // --------------------------------------------------------------- the replay

  /** `after` is `rows` with exactly the rows of `ids` marked, but for those of
      `bad`, whose marks fail. */
  predicate MarksExactly(rows: seq<Balloon>, after: seq<Balloon>, ids: seq<nat>, bad: set<nat>) {
    && |after| == |rows|
    && forall r: nat :: r < |rows| ==> after[r] == if r in ids && r !in bad then rows[r].(read := true) else rows[r]
  }

  /** `after` is `rows` with exactly what the query matches marked, but for `bad`. */
  predicate MarksAllBut(rows: seq<Balloon>, after: seq<Balloon>, q: Query, bad: set<nat>) {
    && |after| == |rows|
    && forall r: nat :: r < |rows| ==>
          after[r] == if Matches(q, rows[r]) && r !in bad then rows[r].(read := true) else rows[r]
  }

  /** Marking the listed rows one by one is marking what the query matches. */
  lemma MarkingListed(rows: seq<Balloon>, after: seq<Balloon>, q: Query, bad: set<nat>)
    requires MarksExactly(rows, after, SelectAll(rows, q), bad)
    ensures MarksAllBut(rows, after, q, bad)
    ensures bad == {} ==> after == MarkWhere(rows, q)
  {
    SelectIs(rows, q, |rows|);
  }

  /** The goroutine that replays unread rows to a new session; `replayed` are the
      rows it sent to that session, in order, and `bad` those whose marks fail. */
  method DrainUnread(table: BalloonTable, user: int, listFails: bool, bad: set<nat>) returns (replayed: seq<nat>)
    modifies table
    ensures replayed == if listFails then [] else SelectAll(old(table.rows), UnreadTo(user))
    ensures listFails ==> table.rows == old(table.rows)
    ensures !listFails ==> MarksAllBut(old(table.rows), table.rows, UnreadTo(user), bad)
  {
    replayed := [];
    if listFails {
      return;
    }
    var unread := table.ListUnreadFor(user);
    for i := 0 to |unread|
      invariant replayed == unread[..i]
      invariant MarksExactly(old(table.rows), table.rows, unread[..i], bad)
    {
      replayed := replayed + [unread[i]];
      assert unread[..i + 1] == unread[..i] + [unread[i]];
      var _ := table.MarkRead(unread[i], unread[i] in bad);
    }
    assert unread[..|unread|] == unread;
    MarkingListed(old(table.rows), table.rows, UnreadTo(user), bad);
  }

  // ----------------------------------------------------------------- the send

  datatype SubmitError = InsertFailed

  ghost predicate IsOnline(live: seq<Broker.Session>, user: int) {
    exists s :: s in live && s.userId == user
  }

  /** The table after a submit: one more row, marked if it is a memo or was
      delivered and the mark does not fail. */
  ghost function SubmittedRows(rows: seq<Balloon>, live: seq<Broker.Session>, from: int, to: int, body: string,
                               now: int, markFails: bool): seq<Balloon>
  {
    rows + [Balloon(from, to, body, !markFails && (from == to || IsOnline(live, to)), now)]
  }

  /** What a submit sends: the row to each live session of the recipient, but a memo to none. */
  function SubmittedSends(live: seq<Broker.Session>, from: int, to: int, id: nat): seq<Broker.Delivery<nat>> {
    if from == to then [] else Broker.Deliveries(Broker.OfUser(live, to), id)
  }

  /** `submit`, once the recipient is known: insert, then mark a memo, or send and
      mark what was delivered.  A row that is committed but cannot be read back
      is not sent. */
  method Submit(table: BalloonTable, hub: Broker.Hub<nat>, from: int, to: int, body: string, now: int,
                insertFails: bool, rereadFails: bool, markFails: bool)
    returns (r: Result<nat, SubmitError>)
    requires hub.Valid()
    modifies table, hub`sent
    ensures hub.Valid()
    ensures r == if insertFails || rereadFails then Err(InsertFailed) else Ok(|old(table.rows)|)
    ensures insertFails ==> table.rows == old(table.rows)
    ensures !insertFails && rereadFails ==> table.rows == old(table.rows) + [Balloon(from, to, body, false, now)]
    ensures r.Err? ==> hub.sent == old(hub.sent)
    ensures r.Ok? ==>
              && table.rows == SubmittedRows(old(table.rows), hub.live, from, to, body, now, markFails)
              && hub.sent == old(hub.sent) + SubmittedSends(hub.live, from, to, |old(table.rows)|)
  {
    var id := table.Insert(from, to, body, now, insertFails, rereadFails);
    if id.None? {
      return Err(InsertFailed);
    }
    if to == from {
      var _ := table.MarkRead(id.value, markFails);
    } else {
      var delivered := hub.Send(to, id.value);
      if delivered {
        var _ := table.MarkRead(id.value, markFails);
      }
    }
    return Ok(id.value);
  }

  // --------------------------------------------- the hub and the protocol agree

  /** A session of the hub and the protocol's session of the same number are one. */
  predicate IsSession(x: Broker.Session, sessions: seq<Delivery.Session>) {
    0 <= x.program < |sessions| && sessions[x.program].online && sessions[x.program].user == x.userId
  }

  /** The hub's list holds exactly the sessions that are online, each once. */
  ghost predicate Mirrors(live: seq<Broker.Session>, sessions: seq<Delivery.Session>) {
    && (forall x :: x in live ==> IsSession(x, sessions))
    && (forall k: nat :: k < |sessions| && sessions[k].online ==> exists x :: x in live && x.program == k)
    && (forall i, j :: 0 <= i < j < |live| ==> live[i].program != live[j].program)
  }

  /** The hub's list after the registrations and unregistrations of a run. */
  function HubAfter(steps: seq<Delivery.Step>): seq<Broker.Session> {
    if steps == [] then []
    else
      var init := steps[..|steps| - 1];
      HubNext(HubAfter(init), Delivery.Run(init).sessions, steps[|steps| - 1])
  }

  /** What `Register` and `Unregister` do to the list. */
  function HubNext(live: seq<Broker.Session>, sessions: seq<Delivery.Session>, a: Delivery.Step): seq<Broker.Session> {
    match a
    case Connect(user) => live + [Broker.Session(user, "", |sessions|)]
    case Disconnect(k) => if k < |sessions| then Broker.WithoutFirst(live, sessions[k].user, k) else live
    case _ => live
  }

  lemma MirrorsConnect(live: seq<Broker.Session>, sessions: seq<Delivery.Session>, user: int)
    requires Mirrors(live, sessions)
    ensures Mirrors(live + [Broker.Session(user, "", |sessions|)],
                    sessions + [Delivery.Session(user, true, Delivery.Registered)])
  {
    var x := Broker.Session(user, "", |sessions|);
    var after := sessions + [Delivery.Session(user, true, Delivery.Registered)];
    assert x in live + [x] && forall y :: y in live ==> y in live + [x];
    forall i, j | 0 <= i < j < |live + [x]| ensures (live + [x])[i].program != (live + [x])[j].program {
      assert live[i] in live;
    }
  }

  lemma MirrorsDisconnect(live: seq<Broker.Session>, sessions: seq<Delivery.Session>, k: nat)
    requires Mirrors(live, sessions) && k < |sessions|
    ensures Mirrors(Broker.WithoutFirst(live, sessions[k].user, k), sessions[k := sessions[k].(online := false)])
  {
    hide Broker.WithoutFirst;
    var user := sessions[k].user;
    var after := Broker.WithoutFirst(live, user, k);
    Broker.WithoutFirstIs(live, user, k);
    if i: nat :| Broker.RemovedAt(live, after, user, k, i) {
      MirrorsRemoved(live, sessions, k, i);
    } else {
      assert forall x :: x in live ==> x.program != k;
    }
  }

  lemma MirrorsRemoved(live: seq<Broker.Session>, sessions: seq<Delivery.Session>, k: nat, i: nat)
    requires Mirrors(live, sessions) && k < |sessions| && i < |live| && live[i].program == k
    ensures Mirrors(live[..i] + live[i + 1..], sessions[k := sessions[k].(online := false)])
  {
    var after := live[..i] + live[i + 1..];
    forall j | 0 <= j < |after| ensures after[j] in live && after[j].program != k {
      assert after[j] == live[if j < i then j else j + 1];
    }
    forall n: nat | n < |sessions| && n != k && sessions[n].online ensures exists x :: x in after && x.program == n {
      var x :| x in live && x.program == n;
      var j :| 0 <= j < |live| && live[j] == x;
      assert after[if j < i then j else j - 1] == x;
    }
  }

  lemma OtherSteps(s: Delivery.State, a: Delivery.Step)
    requires !a.Connect? && !a.Disconnect?
    ensures var t := Delivery.Apply(s, a);
      && |t.sessions| == |s.sessions|
      && forall k :: 0 <= k < |s.sessions| ==>
           t.sessions[k].online == s.sessions[k].online && t.sessions[k].user == s.sessions[k].user
  {
  }

  /** Over every run the hub's list holds exactly the protocol's online sessions. */
  lemma {:induction false} HubMirrorsRun(steps: seq<Delivery.Step>)
    ensures Mirrors(HubAfter(steps), Delivery.Run(steps).sessions)
  {
    if steps != [] {
      var init, a := steps[..|steps| - 1], steps[|steps| - 1];
      var s := Delivery.Run(init);
      HubMirrorsRun(init);
      if a.Connect? {
        MirrorsConnect(HubAfter(init), s.sessions, a.user);
      } else if a.Disconnect? {
        if a.session < |s.sessions| {
          MirrorsDisconnect(HubAfter(init), s.sessions, a.session);
        }
      } else {
        OtherSteps(s, a);
        SameMirror(HubAfter(init), s.sessions, Delivery.Apply(s, a).sessions);
      }
    }
  }

  lemma SameMirror(live: seq<Broker.Session>, x: seq<Delivery.Session>, y: seq<Delivery.Session>)
    requires Mirrors(live, x) && |x| == |y|
    requires forall k :: 0 <= k < |x| ==> x[k].online == y[k].online && x[k].user == y[k].user
    ensures Mirrors(live, y)
  {
  }

  /** The hub sends to exactly the sessions that the protocol counts as online. */
  lemma SameRecipients(live: seq<Broker.Session>, sessions: seq<Delivery.Session>, to: int)
    requires Mirrors(live, sessions)
    ensures forall k: nat :: k in Delivery.OnlineOf(sessions, to) <==>
              exists x :: x in Broker.OfUser(live, to) && x.program == k
    ensures IsOnline(live, to) <==> Delivery.OnlineOf(sessions, to) != {}
  {
    Broker.OfIs(live, [to]);
    var online := Delivery.OnlineOf(sessions, to);
    forall k: nat ensures k in online <==> exists x :: x in Broker.OfUser(live, to) && x.program == k {
      if k in online {
        var x :| x in live && x.program == k;
        assert IsSession(x, sessions) && x in Broker.OfUser(live, to);
      }
    }
    if IsOnline(live, to) {
      var x :| x in live && x.userId == to;
      assert IsSession(x, sessions) && x.program in online;
    }
    if online != {} {
      var k :| k in online;
      var x :| x in live && x.program == k;
      assert IsSession(x, sessions);
    }
  }

  /** An undisturbed submit is the three steps of a sender.  Where the hub holds
      the protocol's online sessions, the steps leave the table as `Submit` does
      and hand the row to exactly the sessions that `Submit` sends it to. */
  lemma SubmitIsThreeSteps(s: Delivery.State, live: seq<Broker.Session>, from: int, to: int, body: string, now: int,
                           markFails: bool)
    requires Mirrors(live, s.sessions)
    ensures var r := |s.rows|;
      var t := Delivery.Apply(Delivery.Apply(Delivery.Apply(s, Delivery.Post(from, to, body, now)), Delivery.Send(r)),
                              Delivery.SenderMarks(r, markFails));
      && t.rows == SubmittedRows(s.rows, live, from, to, body, now, markFails)
      && t.phases == s.phases + [Delivery.Finished]
      && (forall n: nat, k: nat :: (n, k) in t.handed <==>
            (n, k) in s.handed
            || (n == r && exists d :: d in SubmittedSends(live, from, to, r) && d.session.program == k))
  {
    var r, online := |s.rows|, Delivery.OnlineOf(s.sessions, to);
    SameRecipients(live, s.sessions, to);
    ThreeSteps(s, from, to, body, now, markFails);
    forall k: nat
      ensures (exists d :: d in SubmittedSends(live, from, to, r) && d.session.program == k)
         <==> from != to && k in online
    {
      SendsTo(live, from, to, r, k);
    }
  }

  lemma SendsTo(live: seq<Broker.Session>, from: int, to: int, id: nat, k: nat)
    ensures (exists d :: d in SubmittedSends(live, from, to, id) && d.session.program == k)
       <==> from != to && exists x :: x in Broker.OfUser(live, to) && x.program == k
  {
    var xs := Broker.OfUser(live, to);
    var ds := Broker.Deliveries(xs, id);
    forall x | x in xs ensures Broker.Delivery(x, id) in ds {
      var i :| 0 <= i < |xs| && xs[i] == x;
      assert ds[i] == Broker.Delivery(x, id);
    }
    assert forall d :: d in ds ==> d.session in xs;
    if from != to && exists x :: x in xs && x.program == k {
      var x :| x in xs && x.program == k;
      assert Broker.Delivery(x, id).session.program == k;
    }
  }

  lemma ThreeSteps(s: Delivery.State, from: int, to: int, body: string, now: int, markFails: bool)
    ensures var r := |s.rows|; var online := Delivery.OnlineOf(s.sessions, to);
      var t := Delivery.Apply(Delivery.Apply(Delivery.Apply(s, Delivery.Post(from, to, body, now)), Delivery.Send(r)),
                              Delivery.SenderMarks(r, markFails));
      && t.rows == s.rows + [Balloon(from, to, body, !markFails && (from == to || online != {}), now)]
      && t.phases == s.phases + [Delivery.Finished]
      && t.handed == s.handed + if from == to then {} else set k | k in online :: (r, k)
  {
    var r := |s.rows|;
    var t1 := Delivery.Apply(s, Delivery.Post(from, to, body, now));
    var t2 := Delivery.Apply(t1, Delivery.Send(r));
    assert t2.rows == t1.rows && t1.rows[r] == Balloon(from, to, body, false, now);
    assert t1.sessions == s.sessions;
  }

  lemma MarksOneMore(rows: seq<Balloon>, after: seq<Balloon>, ids: seq<nat>, bad: set<nat>)
    requires ids != [] && MarksExactly(if ids[0] in bad then rows else MarkOne(rows, ids[0]), after, ids[1..], bad)
    ensures MarksExactly(rows, after, ids, bad)
  {
    assert ids == [ids[0]] + ids[1..];
  }

  lemma {:induction false} ReplayMarksEach(s: Delivery.State, k: nat, p: seq<nat>, bad: set<nat>)
    requires k < |s.sessions| && s.sessions[k].drain == Delivery.Replaying(p, None)
    ensures MarksExactly(s.rows, Delivery.ReplayAll(s, k, bad, |p|).rows, p, bad)
    decreases |p|
  {
    if p != [] {
      hide *;
      var u := Delivery.ReplayNext(s, k, bad);
      PendingOf(s, k, p);
      Delivery.ReplayOne(s, k, bad);
      ReplayMarksEach(u, k, p[1..], bad);
      ReplayAllStep(s, k, bad, |p|);
      MarksOneMore(s.rows, Delivery.ReplayAll(u, k, bad, |p| - 1).rows, p, bad);
    } else {
      ReplayAllStep(s, k, bad, 0);
    }
  }

  lemma PendingOf(s: Delivery.State, k: nat, p: seq<nat>)
    requires k < |s.sessions| && s.sessions[k].drain == Delivery.Replaying(p, None)
    ensures Delivery.Pending(s, k) == p
  {
  }

  lemma ReplayAllStep(s: Delivery.State, k: nat, bad: set<nat>, n: nat)
    ensures Delivery.ReplayAll(s, k, bad, n)
         == if n == 0 then s else Delivery.ReplayAll(Delivery.ReplayNext(s, k, bad), k, bad, n - 1)
  {
  }

  /** An undisturbed replay is the steps of its goroutine: whichever marks fail, it
      lists the same rows and leaves the table as `DrainUnread` does. */
  lemma DrainIsReplaySteps(s: Delivery.State, k: nat, bad: set<nat>)
    requires k < |s.sessions| && s.sessions[k].drain == Delivery.Registered
    ensures var q := UnreadTo(s.sessions[k].user); var listed := Delivery.ListUnreadStep(s, k, false);
      && Delivery.Pending(listed, k) == SelectAll(s.rows, q)
      && MarksAllBut(s.rows, Delivery.ReplayAll(listed, k, bad, |SelectAll(s.rows, q)|).rows, q, bad)
  {
    var q := UnreadTo(s.sessions[k].user);
    var listed := Delivery.ListUnreadStep(s, k, false);
    ReplayMarksEach(listed, k, SelectAll(s.rows, q), bad);
    MarkingListed(s.rows, Delivery.ReplayAll(listed, k, bad, |SelectAll(s.rows, q)|).rows, q, bad);
  }

  // ------------------------------------------------------------- catching up

  lemma RunNext(steps: seq<Delivery.Step>, a: Delivery.Step)
    ensures Delivery.Run(steps + [a]) == Delivery.Apply(Delivery.Run(steps), a)
  {
    assert (steps + [a])[..|steps|] == steps;
  }

  lemma ReplayIsTwoSteps(s: Delivery.State, k: nat)
    ensures Delivery.Apply(Delivery.Apply(s, Delivery.Replay(k)), Delivery.ReplayMarks(k, false))
         == Delivery.ReplayNext(s, k, {})
  {
  }

  /** The steps of the replay goroutine, taken one after the other. */
  lemma {:induction false} ReplaySteps(steps: seq<Delivery.Step>, k: nat, n: nat) returns (more: seq<Delivery.Step>)
    ensures Delivery.Run(steps + more) == Delivery.ReplayAll(Delivery.Run(steps), k, {}, n)
    decreases n
  {
    hide Delivery.Run, Delivery.Apply, Delivery.ReplayNext;
    if n == 0 {
      more := [];
      assert steps + more == steps;
    } else {
      RunNext(steps, Delivery.Replay(k));
      RunNext(steps + [Delivery.Replay(k)], Delivery.ReplayMarks(k, false));
      ReplayIsTwoSteps(Delivery.Run(steps), k);
      var two := steps + [Delivery.Replay(k)] + [Delivery.ReplayMarks(k, false)];
      var rest := ReplaySteps(two, k, n - 1);
      more := [Delivery.Replay(k)] + [Delivery.ReplayMarks(k, false)] + rest;
      assert steps + more == two + rest;
    }
  }

  /** After a session has connected, listed and replayed undisturbed: nothing to its
      user is unread, no other row has changed, and whatever was unread was handed
      to that session. */
  ghost predicate CaughtUp(s: Delivery.State, t: Delivery.State, user: int) {
    var k := |s.sessions|;
    && Delivery.Drained(t, k) && t.sessions[k].user == user && |t.rows| == |s.rows|
    && (forall r: nat :: r < |s.rows| ==>
          t.rows[r] == if s.rows[r].to == user then s.rows[r].(read := true) else s.rows[r])
    && (forall r: nat :: r < |s.rows| && s.rows[r].to == user && !s.rows[r].read ==> (r, k) in t.handed)
  }

  lemma ReplayCatchesUp(s: Delivery.State, user: int)
    ensures var k := |s.sessions|;
      var listed := Delivery.ListUnreadStep(Delivery.Apply(s, Delivery.Connect(user)), k, false);
      CaughtUp(s, Delivery.ReplayAll(listed, k, {}, |SelectAll(s.rows, UnreadTo(user))|), user)
  {
    var k, q := |s.sessions|, UnreadTo(user);
    var u := Delivery.Apply(s, Delivery.Connect(user));
    var listed := Delivery.ListUnreadStep(u, k, false);
    assert u.rows == s.rows && u.sessions[k] == Delivery.Session(user, true, Delivery.Registered);
    DrainIsReplaySteps(u, k, {});
    SelectIs(s.rows, q, |s.rows|);
    assert listed.sessions[k] == Delivery.Session(user, true, Delivery.Replaying(SelectAll(s.rows, q), None));
    hide SelectAll, Delivery.ListUnreadStep, Delivery.ReplayAll;
    Delivery.ReplayFinishes(listed, k, {});
    var t := Delivery.ReplayAll(listed, k, {}, |SelectAll(s.rows, q)|);
    forall r: nat | r < |s.rows| && s.rows[r].to == user && !s.rows[r].read ensures (r, k) in t.handed {
      assert r in SelectAll(s.rows, q);
      assert Delivery.Replayed(t, k, r, {});
    }
  }

  lemma CatchUpSteps(steps: seq<Delivery.Step>, user: int) returns (more: seq<Delivery.Step>)
    ensures CaughtUp(Delivery.Run(steps), Delivery.Run(steps + [Delivery.Connect(user)] + more), user)
  {
    hide *;
    var s, connect := Delivery.Run(steps), Delivery.Connect(user);
    var k := |s.sessions|;
    var connected, list := steps + [connect], Delivery.ListUnread(k, false);
    RunNext(steps, connect);
    RunNext(connected, list);
    ListingStep(Delivery.Run(connected), k);
    ReplayCatchesUp(s, user);
    var rest := ReplaySteps(connected + [list], k, |SelectAll(s.rows, UnreadTo(user))|);
    more := [list] + rest;
    assert connected + more == connected + [list] + rest;
  }

  lemma ListingStep(s: Delivery.State, k: nat)
    ensures Delivery.Apply(s, Delivery.ListUnread(k, false)) == Delivery.ListUnreadStep(s, k, false)
  {
  }

  /** From every reachable state, a user who connects can catch up: the run has a
      continuation after which nothing to that user is unread, and all that was
      unread has been handed to the new session. */
  lemma ConnectingCanCatchUp(steps: seq<Delivery.Step>, user: int)
    ensures exists more: seq<Delivery.Step> ::
              CaughtUp(Delivery.Run(steps), Delivery.Run(steps + [Delivery.Connect(user)] + more), user)
  {
    hide *;
    var more := CatchUpSteps(steps, user);
  }
}
