/** The hub of live sessions (internal/chat/broker.go): a map from users to their
    sessions, proved against one plain list of sessions in order of registration. */
module Broker {

  /** `program` is the identity of the session's `Sender`. */
  datatype Session = Session(userId: int, handle: string, program: int)

  datatype OnlineUser = OnlineUser(userId: int, handle: string, sessions: nat)

  /** That `Program.Send` of a session was called with a message. */
  datatype Delivery<M> = Delivery(session: Session, msg: M)

  // --------------------------------------------------------- the plain list

  /** The sessions of the given users, in order. */
  function Of(live: seq<Session>, users: seq<int>): seq<Session> {
    if live == [] then []
    else if live[0].userId in users then [live[0]] + Of(live[1..], users)
    else Of(live[1..], users)
  }

  /** `b.sessions[u]` as the list has it. */
  function OfUser(live: seq<Session>, u: int): seq<Session> { Of(live, [u]) }

  /** The list without the first session that `Unregister` matches. */
  function WithoutFirst(live: seq<Session>, userId: int, program: int): seq<Session> {
    if live == [] then []
    else if IsMatch(live[0], userId, program) then live[1..]
    else [live[0]] + WithoutFirst(live[1..], userId, program)
  }

  function Deliveries<M>(to: seq<Session>, msg: M): (r: seq<Delivery<M>>)
    ensures |r| == |to|
    ensures forall i :: 0 <= i < |to| ==> r[i] == Delivery(to[i], msg)
  {
    seq(|to|, i requires 0 <= i < |to| => Delivery(to[i], msg))
  }

  lemma {:induction false} OfConcat(xs: seq<Session>, ys: seq<Session>, users: seq<int>)
    ensures Of(xs + ys, users) == Of(xs, users) + Of(ys, users)
  {
    if xs == [] {
      assert xs + ys == ys;
    } else {
      assert (xs + ys)[1..] == xs[1..] + ys;
      OfConcat(xs[1..], ys, users);
    }
  }

  lemma {:induction false} OfIs(live: seq<Session>, users: seq<int>)
    ensures forall s :: s in Of(live, users) <==> s in live && s.userId in users
  {
    if live != [] {
      OfIs(live[1..], users);
      assert live == [live[0]] + live[1..];
    }
  }

  lemma {:induction false} OfAll(live: seq<Session>, users: seq<int>)
    requires forall s :: s in live ==> s.userId in users
    ensures Of(live, users) == live
  {
    if live != [] {
      OfAll(live[1..], users);
    }
  }

  lemma {:induction false} OfSplits(live: seq<Session>, users: seq<int>, u: int)
    requires u !in users
    ensures multiset(Of(live, users + [u])) == multiset(Of(live, users)) + multiset(OfUser(live, u))
  {
    if live != [] {
      OfSplits(live[1..], users, u);
    }
  }

  predicate IsMatch(s: Session, userId: int, program: int) { s.userId == userId && s.program == program }

  /** `r` is `live` without its session `i`, the first that matches. */
  predicate RemovedAt(live: seq<Session>, r: seq<Session>, userId: int, program: int, i: nat) {
    && i < |live| && IsMatch(live[i], userId, program)
    && (forall j :: 0 <= j < i ==> !IsMatch(live[j], userId, program))
    && r == live[..i] + live[i + 1..]
  }

  lemma RemovedLater(x: Session, live: seq<Session>, r: seq<Session>, userId: int, program: int, i: nat)
    requires RemovedAt(live, r, userId, program, i) && !IsMatch(x, userId, program)
    ensures RemovedAt([x] + live, [x] + r, userId, program, i + 1)
  {
    var all := [x] + live;
    assert all[..i + 1] == [x] + live[..i] && all[i + 2..] == live[i + 1..];
  }

  lemma RemovedFirst(live: seq<Session>, userId: int, program: int)
    requires live != [] && IsMatch(live[0], userId, program)
    ensures RemovedAt(live, live[1..], userId, program, 0)
  {
    assert live[..0] + live[0 + 1..] == live[1..];
  }

  /** Unregistering removes one session, the earliest that matches, and keeps the
      order of the rest; when none matches it removes nothing. */
  lemma {:induction false} WithoutFirstIs(live: seq<Session>, userId: int, program: int)
    ensures var r := WithoutFirst(live, userId, program);
      || (r == live && forall s :: s in live ==> !IsMatch(s, userId, program))
      || (exists i: nat :: RemovedAt(live, r, userId, program, i))
  {
    hide RemovedAt, IsMatch;
    if live == [] {
    } else if IsMatch(live[0], userId, program) {
      RemovedFirst(live, userId, program);
    } else {
      WithoutFirstIs(live[1..], userId, program);
      assert live == [live[0]] + live[1..];
      var r := WithoutFirst(live[1..], userId, program);
      if i: nat :| RemovedAt(live[1..], r, userId, program, i) {
        RemovedLater(live[0], live[1..], r, userId, program, i);
      }
    }
  }

  /** What unregistering does to the list of one user. */
  lemma {:induction false} OfWithoutFirst(live: seq<Session>, userId: int, program: int, u: int)
    ensures OfUser(WithoutFirst(live, userId, program), u)
         == if u == userId then WithoutFirst(OfUser(live, u), userId, program) else OfUser(live, u)
  {
    if live != [] {
      OfWithoutFirst(live[1..], userId, program, u);
      if live[0].userId == u {
        assert OfUser(live, u)[1..] == OfUser(live[1..], u);
      }
      if !IsMatch(live[0], userId, program) {
        assert WithoutFirst(live, userId, program)[1..] == WithoutFirst(live[1..], userId, program);
      }
    }
  }

  lemma {:induction false} WithoutFirstAt(xs: seq<Session>, userId: int, program: int, i: nat)
    requires i < |xs| && xs[i].userId == userId && xs[i].program == program
    requires forall j :: 0 <= j < i ==> xs[j].program != program
    ensures WithoutFirst(xs, userId, program) == xs[..i] + xs[i + 1..]
  {
    if i > 0 {
      assert xs[1..][i - 1] == xs[i];
      WithoutFirstAt(xs[1..], userId, program, i - 1);
      assert xs[..i] + xs[i + 1..] == [xs[0]] + (xs[1..][..i - 1] + xs[1..][i..]);
    }
  }

  lemma {:induction false} WithoutFirstNone(xs: seq<Session>, userId: int, program: int)
    requires forall s :: s in xs ==> s.program != program
    ensures WithoutFirst(xs, userId, program) == xs
  {
    if xs != [] {
      WithoutFirstNone(xs[1..], userId, program);
    }
  }

  lemma DeliveriesConcat<M>(xs: seq<Session>, ys: seq<Session>, msg: M)
    ensures Deliveries(xs + ys, msg) == Deliveries(xs, msg) + Deliveries(ys, msg)
  {
  }

  /** The sessions of the users of `order`, user by user. */
  function Gather(live: seq<Session>, order: seq<int>): seq<Session> {
    if order == [] then []
    else Gather(live, order[..|order| - 1]) + OfUser(live, order[|order| - 1])
  }

  function Without(order: seq<int>, exclude: int): seq<int> {
    if order == [] then []
    else Without(order[..|order| - 1], exclude) + if order[|order| - 1] == exclude then [] else [order[|order| - 1]]
  }

  /** What `SendToAll` sends when it visits the users in this order. */
  function Broadcast<M>(live: seq<Session>, order: seq<int>, exclude: int, msg: M): seq<Delivery<M>> {
    Deliveries(Gather(live, Without(order, exclude)), msg)
  }

  /** The sessions of every user but `exclude`. */
  function Others(live: seq<Session>, exclude: int): seq<Session> {
    if live == [] then [] else (if live[0].userId == exclude then [] else [live[0]]) + Others(live[1..], exclude)
  }

  ghost predicate NoRepeats(order: seq<int>) { forall i, j :: 0 <= i < j < |order| ==> order[i] != order[j] }

  /** `order` names each user with a live session once: a way to range over the map. */
  ghost predicate VisitsAll(order: seq<int>, live: seq<Session>) {
    NoRepeats(order) && forall u :: u in order <==> OfUser(live, u) != []
  }

  lemma {:induction false} OfNobody(live: seq<Session>)
    ensures Of(live, []) == []
  {
    if live != [] {
      OfNobody(live[1..]);
    }
  }

  lemma {:induction false} GatherIs(live: seq<Session>, order: seq<int>)
    requires NoRepeats(order)
    ensures multiset(Gather(live, order)) == multiset(Of(live, order))
  {
    hide Of, OfUser;
    if order == [] {
      OfNobody(live);
    } else {
      var n := |order| - 1;
      GatherIs(live, order[..n]);
      OfSplits(live, order[..n], order[n]);
      assert order == order[..n] + [order[n]];
    }
  }

  lemma {:induction false} WithoutIs(order: seq<int>, exclude: int)
    requires NoRepeats(order)
    ensures NoRepeats(Without(order, exclude))
    ensures forall u :: u in Without(order, exclude) <==> u in order && u != exclude
  {
    if order != [] {
      var n := |order| - 1;
      WithoutIs(order[..n], exclude);
      assert order == order[..n] + [order[n]];
      assert order[n] !in order[..n];
    }
  }

  lemma {:induction false} OfOthers(live: seq<Session>, users: seq<int>, exclude: int)
    requires forall s :: s in live ==> (s.userId in users <==> s.userId != exclude)
    ensures Of(live, users) == Others(live, exclude)
  {
    if live != [] {
      OfOthers(live[1..], users, exclude);
    }
  }

  lemma UserIsVisited(live: seq<Session>, order: seq<int>, s: Session)
    requires VisitsAll(order, live) && s in live
    ensures s.userId in order
  {
    OfIs(live, [s.userId]);
    assert s in OfUser(live, s.userId);
  }

  /** Whatever the order, a traversal comes to each session once; leaving a user
      out leaves out exactly that user's sessions. */
  lemma TraversalIsComplete(live: seq<Session>, order: seq<int>, exclude: int)
    requires VisitsAll(order, live)
    ensures multiset(Gather(live, order)) == multiset(live)
    ensures multiset(Gather(live, Without(order, exclude))) == multiset(Others(live, exclude))
  {
    hide Of, Gather, Without, Others;
    forall s | s in live ensures s.userId in order {
      UserIsVisited(live, order, s);
    }
    GatherIs(live, order);
    OfAll(live, order);
    WithoutIs(order, exclude);
    GatherIs(live, Without(order, exclude));
    OfOthers(live, Without(order, exclude), exclude);
  }

  // ---------------------------------------------------------------- the hub

  class Hub<M> {
    var sessions: map<int, seq<Session>>
    /** Every call of `Program.Send`, in order. */
    var sent: seq<Delivery<M>>
    ghost var live: seq<Session>

    /** The map holds exactly the list, user by user, and no empty slice. */
    ghost predicate Valid()
      reads this`sessions, this`live
    {
      && (forall u :: u in sessions <==> OfUser(live, u) != [])
      && (forall u :: u in sessions ==> sessions[u] == OfUser(live, u))
    }

    constructor ()
      ensures Valid() && live == [] && sent == []
    {
      sessions, sent, live := map[], [], [];
    }

    /** `b.sessions[uid]`, which is nil for a user that is not in the map. */
    function Lookup(userId: int): seq<Session>
      reads this`sessions
    {
      if userId in sessions then sessions[userId] else []
    }

    method Register(s: Session)
      requires Valid()
      modifies this
      ensures Valid() && live == old(live) + [s] && sent == old(sent)
    {
      sessions := sessions[s.userId := Lookup(s.userId) + [s]];
      live := live + [s];
      forall u ensures OfUser(live, u) == OfUser(old(live), u) + if u == s.userId then [s] else [] {
        OfConcat(old(live), [s], [u]);
        assert [s][1..] == [];
      }
    }

    method Unregister(userId: int, program: int)
      requires Valid()
      modifies this
      ensures Valid() && live == WithoutFirst(old(live), userId, program) && sent == old(sent)
    {
      OfIs(live, [userId]);
      Splice(userId, program);
      if |Lookup(userId)| == 0 {
        sessions := sessions - {userId};
      }
      live := WithoutFirst(live, userId, program);
      forall u
        ensures OfUser(live, u)
             == if u == userId then WithoutFirst(OfUser(old(live), u), userId, program) else OfUser(old(live), u)
      {
        OfWithoutFirst(old(live), userId, program, u);
      }
    }

    /** The loop: the first session of the user that matches leaves the slice. */
    method Splice(userId: int, program: int)
      requires forall s :: s in Lookup(userId) ==> s.userId == userId
      modifies this`sessions
      ensures Lookup(userId) == WithoutFirst(old(Lookup(userId)), userId, program)
      ensures forall u :: u != userId ==> Lookup(u) == old(Lookup(u)) && (u in sessions <==> u in old(sessions))
      ensures userId in sessions <==> userId in old(sessions)
    {
      var list := Lookup(userId);
      for i := 0 to |list|
        invariant forall j :: 0 <= j < i ==> list[j].program != program
        invariant sessions == old(sessions)
      {
        if list[i].program == program {
          WithoutFirstAt(list, userId, program, i);
          sessions := sessions[userId := list[..i] + list[i + 1..]];
          return;
        }
      }
      WithoutFirstNone(list, userId, program);
    }

    /** Sends to each session of the user once, in order, and to no other. */
    method Send(to: int, msg: M) returns (delivered: bool)
      requires Valid()
      modifies this`sent
      ensures Valid() && sent == old(sent) + Deliveries(OfUser(live, to), msg)
      ensures delivered <==> exists s :: s in live && s.userId == to
    {
      var list := Lookup(to);
      OfIs(live, [to]);
      assert list == OfUser(live, to);
      SendList(list, msg);
      delivered := |list| > 0;
      assert list != [] ==> list[0] in list;
    }

    method IsOnline(userId: int) returns (online: bool)
      requires Valid()
      ensures online <==> exists s :: s in live && s.userId == userId
    {
      OfIs(live, [userId]);
      online := |Lookup(userId)| > 0;
      assert Lookup(userId) != [] ==> Lookup(userId)[0] in OfUser(live, userId);
    }

    /** Go visits a map in any order; here that order is `order`. */
    method SendToAll(exclude: int, msg: M, order: seq<int>)
      requires Valid() && VisitsAll(order, live)
      modifies this`sent
      ensures Valid() && sent == old(sent) + Broadcast(live, order, exclude, msg)
    {
      hide *;
      NothingBroadcast(live, exclude, msg);
      for i := 0 to |order|
        invariant sent == old(sent) + Broadcast(live, order[..i], exclude, msg)
      {
        VisitedAt(live, order, i);
        SendOneMore(live, order[..i], exclude, order[i], msg);
        assert order[..i + 1] == order[..i] + [order[i]];
        SendUnless(order[i], exclude, msg);
      }
      assert order[..|order|] == order;
    }

    /** One user's turn in the traversal. */
    method SendUnless(u: int, exclude: int, msg: M)
      requires Valid() && OfUser(live, u) != []
      modifies this`sent
      ensures sent == old(sent) + if u == exclude then [] else Deliveries(OfUser(live, u), msg)
    {
      if u != exclude {
        SendList(sessions[u], msg);
      }
    }

    method SendList(list: seq<Session>, msg: M)
      modifies this`sent
      ensures sent == old(sent) + Deliveries(list, msg)
    {
      for i := 0 to |list|
        invariant sent == old(sent) + Deliveries(list[..i], msg)
      {
        sent := sent + [Delivery(list[i], msg)];
        assert list[..i + 1] == list[..i] + [list[i]];
        DeliveriesConcat(list[..i], [list[i]], msg);
      }
      assert list[..|list|] == list;
    }

    method SessionsSnapshot(order: seq<int>) returns (out: seq<Session>)
      requires Valid() && VisitsAll(order, live)
      ensures out == Gather(live, order) && multiset(out) == multiset(live)
    {
      out := [];
      for i := 0 to |order|
        invariant out == Gather(live, order[..i])
      {
        hide Of, OfUser, Gather;
        assert order[i] in order && order[..i + 1] == order[..i] + [order[i]];
        GatherOneMore(live, order[..i], order[i]);
        var list := sessions[order[i]];
        assert list == OfUser(live, order[i]);
        out := out + list;
      }
      assert order[..|order|] == order;
      TraversalIsComplete(live, order, 0);
    }

    /** One line for each user with a live session, and no other: the handle of the
        earliest session, and how many there are. */
    method OnlineList(order: seq<int>) returns (out: seq<OnlineUser>)
      requires Valid() && VisitsAll(order, live)
      ensures |out| == |order|
      ensures forall i :: 0 <= i < |order| ==>
                var list := OfUser(live, order[i]);
                list != [] && out[i] == OnlineUser(order[i], list[0].handle, |list|)
    {
      out := [];
      for i := 0 to |order|
        invariant |out| == i
        invariant forall j :: 0 <= j < i ==>
                    var list := OfUser(live, order[j]);
                    list != [] && out[j] == OnlineUser(order[j], list[0].handle, |list|)
      {
        hide Of;
        assert order[i] in order;
        var list := sessions[order[i]];
        if |list| > 0 {
          out := out + [OnlineUser(order[i], list[0].handle, |list|)];
        }
      }
    }
  }

  lemma NothingBroadcast<M>(live: seq<Session>, exclude: int, msg: M)
    ensures Broadcast(live, [], exclude, msg) == []
  {
  }

  lemma VisitedAt(live: seq<Session>, order: seq<int>, i: nat)
    requires VisitsAll(order, live) && i < |order|
    ensures OfUser(live, order[i]) != []
  {
  }

  lemma GatherOneMore(live: seq<Session>, order: seq<int>, u: int)
    ensures Gather(live, order + [u]) == Gather(live, order) + OfUser(live, u)
  {
    assert (order + [u])[..|order|] == order;
  }

  lemma SendOneMore<M>(live: seq<Session>, order: seq<int>, exclude: int, u: int, msg: M)
    ensures Broadcast(live, order + [u], exclude, msg)
         == Broadcast(live, order, exclude, msg) + if u == exclude then [] else Deliveries(OfUser(live, u), msg)
  {
    hide Gather, Deliveries, OfUser;
    assert (order + [u])[..|order|] == order;
    var kept := Without(order, exclude);
    assert Without(order + [u], exclude) == if u == exclude then kept else kept + [u];
    if u != exclude {
      GatherOneMore(live, kept, u);
      DeliveriesConcat(Gather(live, kept), OfUser(live, u), msg);
    }
  }
}
