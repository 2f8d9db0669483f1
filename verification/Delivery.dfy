/** The water-balloon protocol as interleaved steps: what senders, connecting
    sessions, running sessions and opened threads do to the table. */
module Delivery {
  // Senders insert, send and mark (internal/tui/screen_wb.go); a connecting
  // session registers, lists what is unread, and sends and marks each row
  // (internal/server/server.go); a running session marks what arrives
  // (internal/tui/root.go); a thread marks what it opens.  `Broker.Send` holds
  // the read lock throughout and `Register` and `Unregister` hold the write lock,
  // so each of them is one step, and so is each statement on the table.

  import opened Wrappers
  import opened WaterBalloons

  /** How far the sender of a row has come; `delivered` is what `Broker.Send` returned. */
  datatype Phase = Inserted | Sent(delivered: bool) | Finished

  /** How far the replay goroutine of a session has come. */
  datatype Drain =
    | Registered
    | Replaying(pending: seq<nat>, marking: Option<nat>)
    | GaveUp

  datatype Session = Session(user: int, online: bool, drain: Drain)

  /** `handed` holds (row, session) when `Program.Send` of that session returned
      with that row, `viewed` holds (row, user) when a thread that user opened
      marked the row, and `failed` is set once the mark of a sender or of a
      replay, whose error is dropped, has failed. */
  datatype World = World(
    rows: seq<Balloon>, phases: seq<Phase>, sessions: seq<Session>,
    handed: set<(nat, nat)>, viewed: set<(nat, int)>, failed: bool)

  const START := World([], [], [], {}, {}, false)

  type State = s: World | |s.rows| == |s.phases| witness START

  datatype Step =
    | Post(from: int, to: int, body: string, now: int)
    | Send(row: nat)
    | SenderMarks(row: nat, fails: bool)
    | Connect(user: int)
    | ListUnread(session: nat, fails: bool)
    | Replay(session: nat)
    | ReplayMarks(session: nat, fails: bool)
    | Receive(row: nat, session: nat, fails: bool)
    | OpenThread(viewer: int, counterparty: int, fails: bool)
    | Disconnect(session: nat)

  // -------------------------------------------------------------------- steps

  /** `Broker.Send`: the sessions that are registered for `user`. */
  function OnlineOf(sessions: seq<Session>, user: int): set<nat> {
    set k: nat | k < |sessions| && sessions[k].online && sessions[k].user == user
  }

  predicate IsMemo(s: State, r: nat)
    requires r < |s.rows|
  {
    s.rows[r].from == s.rows[r].to
  }

  /** `MarkRead`, whose error the callers drop. */
  function Mark(s: State, r: nat, fails: bool): State {
    if fails then s.(failed := true) else s.(rows := MarkOne(s.rows, r))
  }

  function SetDrain(s: State, k: nat, d: Drain): State
    requires k < |s.sessions|
  {
    s.(sessions := s.sessions[k := s.sessions[k].(drain := d)])
  }

  function PostStep(s: State, from: int, to: int, body: string, now: int): State {
    s.(rows := s.rows + [Balloon(from, to, body, false, now)], phases := s.phases + [Inserted])
  }

  /** The sender's second step; a memo to oneself is never sent. */
  function SendStep(s: State, r: nat): State {
    if r < |s.rows| && s.phases[r] == Inserted && !IsMemo(s, r) then
      var online := OnlineOf(s.sessions, s.rows[r].to);
      s.(phases := s.phases[r := Sent(online != {})], handed := s.handed + set k | k in online :: (r, k))
    else s
  }

  /** The sender's last step: a memo and what was delivered are marked. */
  function SenderMarksStep(s: State, r: nat, fails: bool): State {
    if r < |s.rows| && ((s.phases[r] == Inserted && IsMemo(s, r)) || s.phases[r] == Sent(true)) then
      Mark(s, r, fails).(phases := s.phases[r := Finished])
    else if r < |s.rows| && s.phases[r] == Sent(false) then s.(phases := s.phases[r := Finished])
    else s
  }

  function ListUnreadStep(s: State, k: nat, fails: bool): State {
    if k < |s.sessions| && s.sessions[k].drain == Registered then
      SetDrain(s, k, if fails then GaveUp else Replaying(SelectAll(s.rows, UnreadTo(s.sessions[k].user)), None))
    else s
  }

  function ReplayStep(s: State, k: nat): State {
    if k < |s.sessions| && s.sessions[k].drain.Replaying? && s.sessions[k].drain.marking.None?
       && s.sessions[k].drain.pending != [] then
      var r := s.sessions[k].drain.pending[0];
      SetDrain(s, k, Replaying(s.sessions[k].drain.pending[1..], Some(r))).(handed := s.handed + {(r, k)})
    else s
  }

  function ReplayMarksStep(s: State, k: nat, fails: bool): State {
    if k < |s.sessions| && s.sessions[k].drain.Replaying? && s.sessions[k].drain.marking.Some? then
      Mark(SetDrain(s, k, s.sessions[k].drain.(marking := None)), s.sessions[k].drain.marking.value, fails)
    else s
  }

  /** The program of a session marks what it was handed. */
  function ReceiveStep(s: State, r: nat, k: nat, fails: bool): State {
    if (r, k) in s.handed && !fails then s.(rows := MarkOne(s.rows, r)) else s
  }

  function OpenThreadStep(s: State, viewer: int, counterparty: int, fails: bool): State {
    if fails then s
    else
      var inbound := UnreadFrom(viewer, counterparty);
      s.(rows := MarkWhere(s.rows, inbound),
         viewed := s.viewed + set r | r in SelectAll(s.rows, inbound) :: (r, viewer))
  }

  /** One step; a step that is not enabled leaves the state as it is. */
  function Apply(s: State, a: Step): State {
    match a
    case Post(from, to, body, now) => PostStep(s, from, to, body, now)
    case Send(r) => SendStep(s, r)
    case SenderMarks(r, fails) => SenderMarksStep(s, r, fails)
    case Connect(user) => s.(sessions := s.sessions + [Session(user, true, Registered)])
    case ListUnread(k, fails) => ListUnreadStep(s, k, fails)
    case Replay(k) => ReplayStep(s, k)
    case ReplayMarks(k, fails) => ReplayMarksStep(s, k, fails)
    case Receive(r, k, fails) => ReceiveStep(s, r, k, fails)
    case OpenThread(viewer, counterparty, fails) => OpenThreadStep(s, viewer, counterparty, fails)
    case Disconnect(k) =>
      if k < |s.sessions| then s.(sessions := s.sessions[k := s.sessions[k].(online := false)]) else s
  }

  /** The state after a run of steps, in any interleaving. */
  function Run(steps: seq<Step>): State {
    if steps == [] then START else Apply(Run(steps[..|steps| - 1]), steps[|steps| - 1])
  }

  // ------------------------------------------------- what the readers' steps are for

  /** A session that receives a row marks it, and that row alone, unless the mark
      fails; it marks nothing it was not handed. */
  lemma ReceiptMarks(s: State, r: nat, k: nat, fails: bool)
    ensures var t := Apply(s, Receive(r, k, fails));
      && t == s.(rows := t.rows) && |t.rows| == |s.rows|
      && forall n: nat :: n < |s.rows| ==>
           t.rows[n] == if n == r && (r, k) in s.handed && !fails then s.rows[n].(read := true) else s.rows[n]
  {
  }

  /** Opening a thread marks exactly the rows from the counterparty to the viewer,
      and those of them that were unread count as opened; when it fails it does
      nothing. */
  lemma OpeningMarks(s: State, viewer: int, counterparty: int, fails: bool)
    ensures var t := Apply(s, OpenThread(viewer, counterparty, fails));
      && t == s.(rows := t.rows, viewed := t.viewed) && |t.rows| == |s.rows|
      && (forall n: nat :: n < |s.rows| ==>
            t.rows[n] == if !fails && s.rows[n].to == viewer && s.rows[n].from == counterparty
                         then s.rows[n].(read := true) else s.rows[n])
      && (forall n: nat, user: int :: (n, user) in t.viewed <==>
            (n, user) in s.viewed
            || (!fails && user == viewer && n < |s.rows| && s.rows[n].to == viewer && s.rows[n].from == counterparty
                && !s.rows[n].read))
  {
    SelectIs(s.rows, UnreadFrom(viewer, counterparty), |s.rows|);
  }

  // ----------------------------------------------------- what one step can do

  /** What no step ever takes back: rows keep their sender and recipient and stay
      marked once marked, sessions keep their user, and nothing handed over or
      opened is forgotten. */
  ghost predicate Grows(s: State, t: State) {
    && |s.rows| <= |t.rows| && |s.sessions| <= |t.sessions|
    && (forall r: nat :: r < |s.rows| ==>
          t.rows[r].from == s.rows[r].from && t.rows[r].to == s.rows[r].to && (s.rows[r].read ==> t.rows[r].read))
    && (forall k: nat :: k < |s.sessions| ==> t.sessions[k].user == s.sessions[k].user)
    && s.handed <= t.handed && s.viewed <= t.viewed && (s.failed ==> t.failed)
  }

  lemma SenderGrows(s: State, r: nat, fails: bool)
    ensures Grows(s, SendStep(s, r)) && Grows(s, SenderMarksStep(s, r, fails))
  {
  }

  lemma ReplayGrows(s: State, k: nat, fails: bool)
    ensures Grows(s, ListUnreadStep(s, k, fails)) && Grows(s, ReplayStep(s, k))
         && Grows(s, ReplayMarksStep(s, k, fails))
  {
  }

  lemma ReaderGrows(s: State, r: nat, k: nat, viewer: int, counterparty: int, fails: bool)
    ensures Grows(s, ReceiveStep(s, r, k, fails)) && Grows(s, OpenThreadStep(s, viewer, counterparty, fails))
  {
  }

  lemma StepGrows(s: State, a: Step)
    ensures Grows(s, Apply(s, a))
  {
    hide SendStep, SenderMarksStep, ListUnreadStep, ReplayStep, ReplayMarksStep, ReceiveStep, OpenThreadStep;
    match a
    case Send(r) => SenderGrows(s, r, false);
    case SenderMarks(r, fails) => SenderGrows(s, r, fails);
    case ListUnread(k, fails) => ReplayGrows(s, k, fails);
    case Replay(k) => ReplayGrows(s, k, false);
    case ReplayMarks(k, fails) => ReplayGrows(s, k, fails);
    case Receive(r, k, fails) => ReaderGrows(s, r, k, 0, 0, fails);
    case OpenThread(viewer, counterparty, fails) => ReaderGrows(s, 0, 0, viewer, counterparty, fails);
    case _ =>
  }

  lemma GrowsRefl(s: State)
    ensures Grows(s, s)
  {
  }

  lemma GrowsOn(s: State, t: State, u: State)
    requires Grows(s, t) && Grows(t, u)
    ensures Grows(s, u)
  {
  }

  ghost predicate Handed(s: State, r: nat) { exists k: nat :: (r, k) in s.handed }

  function Pending(s: State, k: nat): seq<nat> {
    if k < |s.sessions| && s.sessions[k].drain.Replaying? then s.sessions[k].drain.pending else []
  }

  predicate IsMarking(s: State, k: nat, r: nat) {
    k < |s.sessions| && s.sessions[k].drain.Replaying? && s.sessions[k].drain.marking == Some(r)
  }

  /** Rows are handed over only by a send or a replay. */
  lemma NewlyHanded(s: State, a: Step, r: nat, k: nat)
    requires (r, k) in Apply(s, a).handed && (r, k) !in s.handed
    ensures (a == Send(r) && r < |s.rows| && k in OnlineOf(s.sessions, s.rows[r].to)
             && Apply(s, a).phases[r] == Sent(true))
         || (a == Replay(k) && k < |s.sessions| && r in Pending(s, k) && IsMarking(Apply(s, a), k, r))
  {
  }

  /** What a session still has to replay changes only when it lists or replays. */
  lemma PendingChange(s: State, a: Step, k: nat)
    ensures var t := Apply(s, a);
      || Pending(t, k) == Pending(s, k)
      || (a.ListUnread? && a.session == k && k < |s.sessions| && s.sessions[k].drain == Registered
          && Pending(t, k) == SelectAll(s.rows, UnreadTo(s.sessions[k].user)))
      || (a == Replay(k) && Pending(s, k) != [] && Pending(t, k) == Pending(s, k)[1..]
          && (Pending(s, k)[0], k) in t.handed)
  {
  }

  /** What the steps that mark a row rely on. */
  lemma NewlyRead(s: State, a: Step, r: nat)
    requires r < |s.rows| && !s.rows[r].read && Apply(s, a).rows[r].read
    ensures IsMemo(s, r) || s.phases[r] == Sent(true) || BeingMarked(s, r) || Handed(s, r)
         || (r, s.rows[r].to) in Apply(s, a).viewed
  {
    if a.ReplayMarks? {
      assert IsMarking(s, a.session, r);
    } else if a.OpenThread? {
      SelectIs(s.rows, UnreadFrom(a.viewer, a.counterparty), |s.rows|);
    }
  }

  ghost predicate BeingMarked(s: State, r: nat) { exists k: nat :: IsMarking(s, k, r) }

  /** A phase moves on by a send, which hands the row to every online session of
      the recipient, or by the sender's mark. */
  lemma PhaseChange(s: State, a: Step, r: nat)
    requires r < |Apply(s, a).rows|
    ensures var t := Apply(s, a);
      || (r >= |s.rows| && t.phases[r] == Inserted && !t.rows[r].read)
      || (r < |s.rows| && t.phases[r] == s.phases[r])
      || (r < |s.rows| && s.phases[r] == Inserted && !IsMemo(s, r)
          && t.phases[r] == Sent(OnlineOf(s.sessions, s.rows[r].to) != {})
          && forall k :: k in OnlineOf(s.sessions, s.rows[r].to) ==> (r, k) in t.handed)
      || (r < |s.rows| && t.phases[r] == Finished && s.phases[r] == Sent(false))
      || (r < |s.rows| && t.phases[r] == Finished && (t.rows[r].read || t.failed)
          && (s.phases[r] == Sent(true) || (s.phases[r] == Inserted && IsMemo(s, r))))
  {
  }

  /** A replay marks only what it has just handed over, and stops marking only
      when the row is marked or the mark failed. */
  lemma MarkingChange(s: State, a: Step, k: nat, r: nat)
    ensures var t := Apply(s, a);
      && (IsMarking(t, k, r) ==> IsMarking(s, k, r) || (r, k) in t.handed)
      && (IsMarking(s, k, r) && !IsMarking(t, k, r) ==> r >= |s.rows| || t.rows[r].read || t.failed)
  {
  }

  lemma SessionChange(s: State, a: Step, k: nat)
    requires k < |Apply(s, a).sessions| && Apply(s, a).sessions[k].online && Apply(s, a).sessions[k].drain.Replaying?
    ensures k < |s.sessions| && s.sessions[k].online
    ensures s.sessions[k].drain.Replaying?
         || (a == ListUnread(k, false) && Pending(Apply(s, a), k) == SelectAll(s.rows, UnreadTo(s.sessions[k].user))
             && Apply(s, a).rows == s.rows && Apply(s, a).phases == s.phases)
  {
  }

  lemma NewlyViewed(s: State, a: Step, r: nat, user: int)
    requires (r, user) in Apply(s, a).viewed && (r, user) !in s.viewed
    ensures r < |s.rows| && s.rows[r].to == user && Apply(s, a).rows[r].read
  {
    if a.OpenThread? {
      SelectIs(s.rows, UnreadFrom(a.viewer, a.counterparty), |s.rows|);
    }
  }

  // --------------------------------------------------------------- invariants

  /** Row `r` exists and is addressed to the user of session `k`. */
  predicate ToUserOf(s: State, r: nat, k: nat) {
    r < |s.rows| && k < |s.sessions| && s.sessions[k].user == s.rows[r].to
  }

  predicate HoldsInbound(s: State, k: nat) { forall r :: r in Pending(s, k) ==> ToUserOf(s, r, k) }

  /** Only sessions of the recipient are handed a row, a replay holds only rows
      to its own user, and users open only rows addressed to them. */
  ghost predicate ToRecipient(s: State) {
    && (forall r: nat, k: nat :: (r, k) in s.handed ==> ToUserOf(s, r, k))
    && (forall k: nat :: HoldsInbound(s, k))
    && (forall r: nat, user: int :: (r, user) in s.viewed ==> r < |s.rows| && s.rows[r].to == user)
  }

  /** A row about to be marked by its sender or by a replay was handed over. */
  ghost predicate MarkingWasHanded(s: State) {
    && (forall k: nat, r: nat :: IsMarking(s, k, r) ==> (r, k) in s.handed)
    && (forall r: nat :: r < |s.rows| && s.phases[r] == Sent(true) ==> Handed(s, r))
  }

  ghost predicate Reached(s: State, r: nat)
    requires r < |s.rows|
  {
    Handed(s, r) || (r, s.rows[r].to) in s.viewed
  }

  /** A row is marked only if it was handed over, was opened in a thread by its
      recipient, or is a memo to oneself. */
  ghost predicate ReadMeansReached(s: State) {
    forall r: nat :: r < |s.rows| && s.rows[r].read ==> Reached(s, r) || IsMemo(s, r)
  }

  /** The rows that session `k`, once it has listed, must not miss: those to its
      user that are no memo and whose send is over. */
  ghost predicate Owed(s: State, k: nat, r: nat) {
    && k < |s.sessions| && s.sessions[k].online && s.sessions[k].drain.Replaying?
    && r < |s.rows| && s.rows[r].to == s.sessions[k].user && !IsMemo(s, r) && s.phases[r] != Inserted
  }

  ghost predicate NothingMissed(s: State) {
    forall k: nat, r: nat :: Owed(s, k, r) ==> Reached(s, r) || r in Pending(s, k)
  }

  /** What was handed over or opened, and a finished memo, is marked or about to be. */
  ghost predicate MarkDue(s: State, r: nat)
    requires r < |s.rows|
  {
    && (Handed(s, r) ==> s.rows[r].read || s.phases[r] == Sent(true) || BeingMarked(s, r))
    && ((r, s.rows[r].to) in s.viewed ==> s.rows[r].read)
    && (IsMemo(s, r) ==> s.phases[r] == Inserted || (s.phases[r] == Finished && s.rows[r].read))
  }

  ghost predicate MarksFollow(s: State) {
    !s.failed ==> forall r: nat :: r < |s.rows| ==> MarkDue(s, r)
  }

  lemma HandedStays(s: State, t: State, r: nat)
    requires Grows(s, t)
    ensures Handed(s, r) ==> Handed(t, r)
    ensures r < |s.rows| && Reached(s, r) ==> Reached(t, r)
  {
    if k: nat :| (r, k) in s.handed {
      assert (r, k) in t.handed;
    }
  }

  lemma KeepsToRecipient(s: State, a: Step)
    requires ToRecipient(s)
    ensures ToRecipient(Apply(s, a))
  {
    hide Apply, Pending;
    var t := Apply(s, a);
    StepGrows(s, a);
    forall r: nat, k: nat | (r, k) in t.handed ensures ToUserOf(t, r, k) {
      if (r, k) !in s.handed {
        assert HoldsInbound(s, k);
        NewlyHanded(s, a, r, k);
      }
    }
    forall k: nat ensures HoldsInbound(t, k) {
      KeepsInbound(s, a, k);
    }
    forall r: nat, user: int | (r, user) in t.viewed ensures r < |t.rows| && t.rows[r].to == user {
      if (r, user) !in s.viewed {
        NewlyViewed(s, a, r, user);
      }
    }
  }

  lemma KeepsInbound(s: State, a: Step, k: nat)
    requires HoldsInbound(s, k)
    ensures HoldsInbound(Apply(s, a), k)
  {
    hide Apply, Pending;
    var t := Apply(s, a);
    StepGrows(s, a);
    PendingChange(s, a, k);
    forall r | r in Pending(t, k) ensures ToUserOf(t, r, k) {
      if k < |s.sessions| {
        SelectIs(s.rows, UnreadTo(s.sessions[k].user), |s.rows|);
      }
      assert r in Pending(s, k) ==> ToUserOf(s, r, k);
    }
  }

  lemma KeepsMarkingWasHanded(s: State, a: Step)
    requires MarkingWasHanded(s)
    ensures MarkingWasHanded(Apply(s, a))
  {
    hide Apply, IsMarking;
    var t := Apply(s, a);
    StepGrows(s, a);
    forall k: nat, r: nat | IsMarking(t, k, r) ensures (r, k) in t.handed {
      MarkingChange(s, a, k, r);
    }
    forall r: nat | r < |t.rows| && t.phases[r] == Sent(true) ensures Handed(t, r) {
      PhaseChange(s, a, r);
      HandedStays(s, t, r);
      if r < |s.rows| && s.phases[r] == Inserted {
        var k :| k in OnlineOf(s.sessions, s.rows[r].to);
        assert (r, k) in t.handed;
      }
    }
  }

  lemma KeepsReadMeansReached(s: State, a: Step)
    requires ReadMeansReached(s) && MarkingWasHanded(s)
    ensures ReadMeansReached(Apply(s, a))
  {
    hide Apply;
    var t := Apply(s, a);
    StepGrows(s, a);
    forall r: nat | r < |t.rows| && t.rows[r].read ensures Reached(t, r) || IsMemo(t, r) {
      PhaseChange(s, a, r);
      HandedStays(s, t, r);
      if r < |s.rows| && !s.rows[r].read {
        NewlyRead(s, a, r);
      }
    }
  }

  lemma KeepsNothingMissed(s: State, a: Step)
    requires NothingMissed(s) && ReadMeansReached(s)
    ensures NothingMissed(Apply(s, a))
  {
    hide Apply, Pending;
    var t := Apply(s, a);
    StepGrows(s, a);
    forall k: nat, r: nat | Owed(t, k, r) ensures Reached(t, r) || r in Pending(t, k) {
      NotMissed(s, a, k, r);
    }
  }

  lemma StillPending(s: State, a: Step, k: nat, r: nat)
    requires r in Pending(s, k) && k < |s.sessions| && s.sessions[k].drain.Replaying?
    ensures r in Pending(Apply(s, a), k) || Handed(Apply(s, a), r)
  {
    hide Apply;
    PendingChange(s, a, k);
    var p := Pending(s, k);
    assert p == [p[0]] + p[1..];
  }

  lemma NotMissed(s: State, a: Step, k: nat, r: nat)
    requires NothingMissed(s) && ReadMeansReached(s) && Owed(Apply(s, a), k, r)
    ensures Reached(Apply(s, a), r) || r in Pending(Apply(s, a), k)
  {
    hide Apply, Pending;
    var t := Apply(s, a);
    StepGrows(s, a);
    HandedStays(s, t, r);
    SessionChange(s, a, k);
    PhaseChange(s, a, r);
    if !s.sessions[k].drain.Replaying? {
      SelectIs(s.rows, UnreadTo(s.sessions[k].user), |s.rows|);
    } else if s.phases[r] == Inserted {
      assert k in OnlineOf(s.sessions, s.rows[r].to);
    } else {
      assert Owed(s, k, r);
      if !Reached(s, r) {
        StillPending(s, a, k, r);
      }
    }
  }

  lemma KeepsMarksFollow(s: State, a: Step)
    requires MarksFollow(s) && ToRecipient(s)
    ensures MarksFollow(Apply(s, a))
  {
    hide Apply;
    var t := Apply(s, a);
    StepGrows(s, a);
    if !t.failed {
      forall r: nat | r < |t.rows| ensures MarkDue(t, r) {
        StillDue(s, a, r);
      }
    }
  }

  lemma StillDue(s: State, a: Step, r: nat)
    requires MarksFollow(s) && ToRecipient(s) && !Apply(s, a).failed && r < |Apply(s, a).rows|
    ensures MarkDue(Apply(s, a), r)
  {
    hide Apply, Pending, IsMarking;
    var t := Apply(s, a);
    StepGrows(s, a);
    PhaseChange(s, a, r);
    assert r < |s.rows| ==> MarkDue(s, r);
    if Handed(t, r) {
      HandedIsDue(s, a, r);
    }
    if (r, t.rows[r].to) in t.viewed && (r, t.rows[r].to) !in s.viewed {
      NewlyViewed(s, a, r, t.rows[r].to);
    }
  }

  lemma HandedIsDue(s: State, a: Step, r: nat)
    requires MarksFollow(s) && ToRecipient(s) && !Apply(s, a).failed && Handed(Apply(s, a), r)
    ensures var t := Apply(s, a);
      r < |s.rows| && r < |t.rows| && (t.rows[r].read || t.phases[r] == Sent(true) || BeingMarked(t, r))
  {
    hide Apply, Pending, IsMarking;
    var t := Apply(s, a);
    StepGrows(s, a);
    var k: nat :| (r, k) in t.handed;
    if (r, k) in s.handed {
      assert ToUserOf(s, r, k) && Handed(s, r) && MarkDue(s, r);
      PhaseChange(s, a, r);
      if j: nat :| IsMarking(s, j, r) {
        MarkingChange(s, a, j, r);
      }
    } else {
      assert HoldsInbound(s, k);
      NewlyHanded(s, a, r, k);
    }
  }

  // -------------------------------------------------------------- whole runs

  ghost predicate Inv(s: State) {
    ToRecipient(s) && MarkingWasHanded(s) && ReadMeansReached(s) && NothingMissed(s) && MarksFollow(s)
  }

  lemma StepKeepsInv(s: State, a: Step)
    requires Inv(s)
    ensures Inv(Apply(s, a))
  {
    hide Apply, ToRecipient, MarkingWasHanded, ReadMeansReached, NothingMissed, MarksFollow;
    KeepsToRecipient(s, a);
    KeepsMarkingWasHanded(s, a);
    KeepsReadMeansReached(s, a);
    KeepsNothingMissed(s, a);
    KeepsMarksFollow(s, a);
  }

  lemma {:induction false} RunKeepsInv(steps: seq<Step>)
    ensures Inv(Run(steps))
  {
    if steps != [] {
      hide Apply, ToRecipient, MarkingWasHanded, ReadMeansReached, NothingMissed, MarksFollow;
      RunKeepsInv(steps[..|steps| - 1]);
      StepKeepsInv(Run(steps[..|steps| - 1]), steps[|steps| - 1]);
    }
  }

  /** The replay of session `k` is over. */
  predicate Drained(s: State, k: nat) {
    k < |s.sessions| && s.sessions[k].drain == Replaying([], None)
  }

  /** No balloon falls in the gap: whatever the interleaving, once the replay of
      a session is over and the session is still registered, every row to its
      user whose send is over was handed to a session of that user or opened by
      that user in a thread. */
  lemma NoGap(steps: seq<Step>, k: nat, r: nat)
    requires var s := Run(steps);
      && Drained(s, k) && s.sessions[k].online
      && r < |s.rows| && s.rows[r].to == s.sessions[k].user && !IsMemo(s, r) && s.phases[r] != Inserted
    ensures var s := Run(steps);
      || (r, s.rows[r].to) in s.viewed
      || exists j: nat :: (r, j) in s.handed && ToUserOf(s, r, j)
  {
    var s := Run(steps);
    RunKeepsInv(steps);
    assert Owed(s, k, r);
    if j: nat :| (r, j) in s.handed {
      assert ToUserOf(s, r, j);
    }
  }

  /** Read means handed over: in every reachable state a marked row was handed to
      a session of its recipient, was opened by its recipient, or is a memo. */
  lemma ReadMeansHandedOver(steps: seq<Step>, r: nat)
    requires r < |Run(steps).rows| && Run(steps).rows[r].read
    ensures var s := Run(steps);
      || IsMemo(s, r)
      || (r, s.rows[r].to) in s.viewed
      || exists j: nat :: (r, j) in s.handed && ToUserOf(s, r, j)
  {
    var s := Run(steps);
    RunKeepsInv(steps);
    if j: nat :| (r, j) in s.handed {
      assert ToUserOf(s, r, j);
    }
  }

  /** Nothing a run has reached is taken back by what follows; in particular a
      mark never reverts. */
  lemma {:induction false} RunsGrow(steps: seq<Step>, more: seq<Step>)
    ensures Grows(Run(steps), Run(steps + more))
  {
    hide Apply, Grows;
    if more == [] {
      assert steps + more == steps;
      GrowsRefl(Run(steps));
    } else {
      var n := |steps + more| - 1;
      RunsGrow(steps, more[..|more| - 1]);
      assert (steps + more)[..n] == steps + more[..|more| - 1];
      StepGrows(Run((steps + more)[..n]), (steps + more)[n]);
      GrowsOn(Run(steps), Run((steps + more)[..n]), Run(steps + more));
    }
  }

  /** When no send and no replay is in flight and no mark has failed, a user with
      a registered session whose replay is over has nothing unread. */
  lemma NothingLeftUnread(steps: seq<Step>, k: nat)
    requires var s := Run(steps);
      && Drained(s, k) && s.sessions[k].online && !s.failed
      && (forall r: nat :: r < |s.rows| && s.rows[r].to == s.sessions[k].user ==> s.phases[r] == Finished)
      && (forall j: nat :: j < |s.sessions| && s.sessions[j].drain.Replaying? ==>
            s.sessions[j].user == s.sessions[k].user ==> s.sessions[j].drain.marking.None?)
    ensures SelectAll(Run(steps).rows, UnreadTo(Run(steps).sessions[k].user)) == []
  {
    var s := Run(steps);
    RunKeepsInv(steps);
    SelectIs(s.rows, UnreadTo(s.sessions[k].user), |s.rows|);
    var unread := SelectAll(s.rows, UnreadTo(s.sessions[k].user));
    if unread != [] {
      var r := unread[0];
      assert r in unread;
      IsMarked(s, k, r);
    }
  }

  lemma IsMarked(s: State, k: nat, r: nat)
    requires Inv(s) && Drained(s, k) && s.sessions[k].online && !s.failed
    requires r < |s.rows| && s.rows[r].to == s.sessions[k].user && s.phases[r] == Finished
    requires forall j: nat :: j < |s.sessions| && s.sessions[j].drain.Replaying? ==>
               s.sessions[j].user == s.sessions[k].user ==> s.sessions[j].drain.marking.None?
    ensures s.rows[r].read
  {
    assert MarkDue(s, r);
    if !IsMemo(s, r) {
      assert Owed(s, k, r);
      forall j: nat ensures IsMarking(s, j, r) ==> ToUserOf(s, r, j) {
        assert IsMarking(s, j, r) ==> (r, j) in s.handed;
      }
    }
  }

  /** The two steps of the replay goroutine of session `k` for its next row; the
      marks of the rows in `bad` fail. */
  function ReplayNext(s: State, k: nat, bad: set<nat>): State {
    ReplayMarksStep(ReplayStep(s, k), k, Pending(s, k) != [] && Pending(s, k)[0] in bad)
  }

  /** The state after the replay goroutine has sent and marked `n` rows, undisturbed. */
  function ReplayAll(s: State, k: nat, bad: set<nat>, n: nat): State
    decreases n
  {
    if n == 0 then s else ReplayAll(ReplayNext(s, k, bad), k, bad, n - 1)
  }

  /** Row `r` was handed to session `k` and marked, if there is such a row and its
      mark does not fail. */
  predicate Replayed(s: State, k: nat, r: nat, bad: set<nat>) {
    (r, k) in s.handed && (r < |s.rows| && r !in bad ==> s.rows[r].read)
  }

  lemma ReplayOne(s: State, k: nat, bad: set<nat>)
    requires k < |s.sessions| && s.sessions[k].drain.Replaying? && s.sessions[k].drain.marking.None?
           && Pending(s, k) != []
    ensures var t, r := ReplayNext(s, k, bad), Pending(s, k)[0];
      && |t.sessions| == |s.sessions| && t.sessions[k].drain == Replaying(Pending(s, k)[1..], None)
      && t.rows == (if r in bad then s.rows else MarkOne(s.rows, r)) && Replayed(t, k, r, bad) && Grows(s, t)
  {
    hide Grows;
    var fails := Pending(s, k)[0] in bad;
    StepGrows(s, Replay(k));
    StepGrows(ReplayStep(s, k), ReplayMarks(k, fails));
    GrowsOn(s, ReplayStep(s, k), ReplayMarksStep(ReplayStep(s, k), k, fails));
  }

  lemma ReplayedStays(s: State, t: State, k: nat, r: nat, bad: set<nat>)
    requires Grows(s, t) && |s.rows| == |t.rows| && Replayed(s, k, r, bad)
    ensures Replayed(t, k, r, bad)
  {
  }

  /** Left alone, a replay hands every row it listed to its session, marks it
      unless that mark fails, and comes to an end. */
  lemma {:induction false} ReplayFinishes(s: State, k: nat, bad: set<nat>)
    requires k < |s.sessions| && s.sessions[k].drain.Replaying? && s.sessions[k].drain.marking.None?
    ensures var t := ReplayAll(s, k, bad, |Pending(s, k)|);
      && Drained(t, k) && Grows(s, t) && |t.rows| == |s.rows|
      && forall r :: r in Pending(s, k) ==> Replayed(t, k, r, bad)
    decreases |Pending(s, k)|
  {
    hide ReplayNext, Replayed, Grows;
    var p := Pending(s, k);
    if p == [] {
      GrowsRefl(s);
    } else {
      var u := ReplayNext(s, k, bad);
      var t := ReplayAll(u, k, bad, |p| - 1);
      ReplayOne(s, k, bad);
      ReplayFinishes(u, k, bad);
      GrowsOn(s, u, t);
      ReplayedStays(u, t, k, p[0], bad);
      assert p == [p[0]] + p[1..];
    }
  }

  // ------------------------------------------------------- how often it is sent

  /** The send step of row `r` takes effect and reaches session `k`. */
  predicate SendsLive(s: State, a: Step, r: nat, k: nat) {
    a == Send(r) && r < |s.rows| && s.phases[r] == Inserted && !IsMemo(s, r) && k in OnlineOf(s.sessions, s.rows[r].to)
  }

  /** The replay of session `k` sends row `r`. */
  predicate SendsReplay(s: State, a: Step, r: nat, k: nat) {
    && a == Replay(k) && k < |s.sessions| && s.sessions[k].drain.Replaying? && s.sessions[k].drain.marking.None?
    && Pending(s, k) != [] && Pending(s, k)[0] == r
  }

  /** How often `Program.Send` of session `k` was called with row `r` by its sender. */
  function LiveSends(steps: seq<Step>, r: nat, k: nat): nat {
    if steps == [] then 0
    else
      var init := steps[..|steps| - 1];
      LiveSends(init, r, k) + if SendsLive(Run(init), steps[|steps| - 1], r, k) then 1 else 0
  }

  /** How often it was called with that row by the session's replay. */
  function Replays(steps: seq<Step>, r: nat, k: nat): nat {
    if steps == [] then 0
    else
      var init := steps[..|steps| - 1];
      Replays(init, r, k) + if SendsReplay(Run(init), steps[|steps| - 1], r, k) then 1 else 0
  }

  /** Row `r` has not left its first phase, or does not exist. */
  predicate Unsent(s: State, r: nat) { r < |s.rows| ==> s.phases[r] == Inserted }

  lemma SendOnce(s: State, a: Step, r: nat, k: nat)
    ensures Unsent(Apply(s, a), r) ==> Unsent(s, r) && !SendsLive(s, a, r, k)
    ensures SendsLive(s, a, r, k) ==> Unsent(s, r)
  {
    hide Apply;
    if r < |Apply(s, a).rows| {
      PhaseChange(s, a, r);
    }
    StepGrows(s, a);
    SendLeavesPhase(s, a, r, k);
  }

  lemma SendLeavesPhase(s: State, a: Step, r: nat, k: nat)
    ensures SendsLive(s, a, r, k) ==> r < |Apply(s, a).rows| && Apply(s, a).phases[r] != Inserted
  {
  }

  ghost predicate Ascending(p: seq<nat>) { forall i, j :: 0 <= i < j < |p| ==> p[i] < p[j] }

  /** Session `k` has not listed yet. */
  predicate Unlisted(s: State, k: nat) { k < |s.sessions| ==> s.sessions[k].drain == Registered }

  lemma PendingAfter(s: State, a: Step, k: nat)
    requires Ascending(Pending(s, k))
    ensures Ascending(Pending(Apply(s, a), k))
    ensures Unlisted(Apply(s, a), k) ==> Unlisted(s, k)
    ensures forall r :: r in Pending(Apply(s, a), k) ==> r in Pending(s, k) || Unlisted(s, k)
  {
    PendingChange(s, a, k);
    if k < |s.sessions| {
      SelectIs(s.rows, UnreadTo(s.sessions[k].user), |s.rows|);
    }
    hide SelectAll;
    assert Pending(s, k) != [] ==> Pending(s, k) == [Pending(s, k)[0]] + Pending(s, k)[1..];
  }

  lemma ReplayTakes(s: State, a: Step, r: nat, k: nat)
    requires SendsReplay(s, a, r, k) && Ascending(Pending(s, k))
    ensures r in Pending(s, k) && r !in Pending(Apply(s, a), k) && !Unlisted(s, k)
  {
    assert Pending(Apply(s, a), k) == Pending(s, k)[1..];
  }

  /** The replay sends a row only while it holds it, and holds it once. */
  lemma {:induction false} ReplayedOnce(steps: seq<Step>, r: nat, k: nat)
    ensures var s := Run(steps);
      && Ascending(Pending(s, k)) && Replays(steps, r, k) <= 1
      && (r in Pending(s, k) || Unlisted(s, k) ==> Replays(steps, r, k) == 0)
  {
    hide Apply, Pending, Unlisted, SendsReplay, Ascending;
    if steps == [] {
      NothingPending(k);
    } else {
      var init, a := steps[..|steps| - 1], steps[|steps| - 1];
      ReplayedOnce(init, r, k);
      PendingAfter(Run(init), a, k);
      if SendsReplay(Run(init), a, r, k) {
        ReplayTakes(Run(init), a, r, k);
      }
    }
  }

  lemma NothingPending(k: nat)
    ensures Pending(START, k) == [] && Ascending(Pending(START, k))
  {
  }

  lemma {:induction false} SentLiveOnce(steps: seq<Step>, r: nat, k: nat)
    ensures LiveSends(steps, r, k) <= 1 && (Unsent(Run(steps), r) ==> LiveSends(steps, r, k) == 0)
  {
    hide Apply, Unsent, SendsLive;
    if steps != [] {
      var init, a := steps[..|steps| - 1], steps[|steps| - 1];
      SentLiveOnce(init, r, k);
      SendOnce(Run(init), a, r, k);
    }
  }

  lemma HandedByCall(s: State, a: Step, r: nat, k: nat)
    ensures (r, k) in Apply(s, a).handed <==> (r, k) in s.handed || SendsLive(s, a, r, k) || SendsReplay(s, a, r, k)
  {
  }

  /** One session is sent one row at most twice: at most once by its sender and at
      most once by its own replay; and it was handed the row exactly if it was
      sent it at all. */
  lemma {:induction false} SentAtMostTwice(steps: seq<Step>, r: nat, k: nat)
    ensures LiveSends(steps, r, k) <= 1 && Replays(steps, r, k) <= 1
    ensures (r, k) in Run(steps).handed <==> LiveSends(steps, r, k) + Replays(steps, r, k) > 0
  {
    SentLiveOnce(steps, r, k);
    ReplayedOnce(steps, r, k);
    if steps != [] {
      hide Apply, SendsLive, SendsReplay;
      SentAtMostTwice(steps[..|steps| - 1], r, k);
      HandedByCall(Run(steps[..|steps| - 1]), steps[|steps| - 1], r, k);
    }
  }

  lemma CountNext(steps: seq<Step>, a: Step, r: nat, k: nat)
    ensures Run(steps + [a]) == Apply(Run(steps), a)
    ensures LiveSends(steps + [a], r, k) == LiveSends(steps, r, k) + if SendsLive(Run(steps), a, r, k) then 1 else 0
    ensures Replays(steps + [a], r, k) == Replays(steps, r, k) + if SendsReplay(Run(steps), a, r, k) then 1 else 0
  {
    assert (steps + [a])[..|steps|] == steps;
  }

  /** A state in which nothing was handed over, opened or failed. */
  function Quiet(rows: seq<Balloon>, phases: seq<Phase>, sessions: seq<Session>): State
    requires |rows| == |phases|
  {
    World(rows, phases, sessions, {}, {}, false)
  }

  /** A run that posts a row and connects its recipient. */
  function PostedAndConnected(): seq<Step> { [Post(1, 2, "", 0)] + [Connect(2)] }

  lemma AfterConnecting()
    ensures Run(PostedAndConnected())
         == Quiet([Balloon(1, 2, "", false, 0)], [Inserted], [Session(2, true, Registered)])
    ensures LiveSends(PostedAndConnected(), 0, 0) == 0 && Replays(PostedAndConnected(), 0, 0) == 0
  {
    assert [] + [Post(1, 2, "", 0)] == [Post(1, 2, "", 0)];
    CountNext([], Post(1, 2, "", 0), 0, 0);
    CountNext([Post(1, 2, "", 0)], Connect(2), 0, 0);
  }

  lemma ListsTheRow(row: Balloon)
    requires row.to == 2 && !row.read
    ensures Apply(Quiet([row], [Inserted], [Session(2, true, Registered)]), ListUnread(0, false))
         == Quiet([row], [Inserted], [Session(2, true, Replaying([0], None))])
  {
    assert Select([row], UnreadTo(2), 0) == [] && Select([row], UnreadTo(2), 1) == [0];
  }

  function PostedAndListed(): seq<Step> { PostedAndConnected() + [ListUnread(0, false)] }

  lemma AfterListing()
    ensures Run(PostedAndListed())
         == Quiet([Balloon(1, 2, "", false, 0)], [Inserted], [Session(2, true, Replaying([0], None))])
    ensures LiveSends(PostedAndListed(), 0, 0) == 0 && Replays(PostedAndListed(), 0, 0) == 0
  {
    AfterConnecting();
    ListsTheRow(Balloon(1, 2, "", false, 0));
    CountNext(PostedAndConnected(), ListUnread(0, false), 0, 0);
    hide Run, LiveSends, Replays, PostedAndConnected, Apply, Quiet;
  }

  /** Twice does happen: a row that is listed before it is sent is sent live and
      replayed. */
  lemma SentTwice()
    ensures var steps := PostedAndListed() + [Send(0)] + [Replay(0)];
      LiveSends(steps, 0, 0) == 1 && Replays(steps, 0, 0) == 1
  {
    AfterListing();
    CountNext(PostedAndListed(), Send(0), 0, 0);
    CountNext(PostedAndListed() + [Send(0)], Replay(0), 0, 0);
    hide Run, LiveSends, Replays, PostedAndListed;
    assert 0 in OnlineOf(Run(PostedAndListed()).sessions, 2);
  }
}
