/** What every run of the engine keeps: each request completes exactly once, each allocation is freed exactly
    once, and disconnect empties the list. */
module EngineInvariants {
  import opened Common
  import opened Backoff
  import opened ObserveOrder
  import opened Engine

  // ----- Runs

  datatype Step =
    | SubmitStep(draft: Draft)
    | PollStep
    | RxStep(rx: Packet)
    | NextStep(rid: nat, next: Next)   // get_next kept by the user and called after the callback returned
    | ConnectStep
    | DisconnectStep

  datatype Event = Event(now: int, step: Step)

  function IndexOf(reqs: seq<Req>, rid: nat): (i: nat)
    ensures i <= |reqs|
    ensures i < |reqs| ==> reqs[i].rid == rid
    ensures forall j :: 0 <= j < i ==> reqs[j].rid != rid
  {
    if reqs == [] || reqs[0].rid == rid then 0 else 1 + IndexOf(reqs[1..], rid)
  }

  function Apply(c: Client, e: Event, user: User): Client
  {
    match e.step
    case SubmitStep(d) => Submit(c, d, e.now)
    case PollStep => PollPass(c, 0, user, e.now).0
    case RxStep(rx) => ProcessRx(c, rx, user, e.now)
    case NextStep(rid, next) =>
      var i := IndexOf(c.reqs, rid);
      if i == |c.reqs| || c.reqs[i].observe then c else WithReq(c, i, NextBlock(c.reqs[i], next, e.now))
    case ConnectStep => OnConnect(c)
    case DisconnectStep => OnDisconnect(c, user, e.now)
  }

  function Run(events: seq<Event>, user: User): Client
  {
    if events == [] then INITIAL_CLIENT
    else Apply(Run(events[..|events| - 1], user), events[|events| - 1], user)
  }

  // ----- Ownership

  function Rids(reqs: seq<Req>): (r: seq<nat>)
    ensures |r| == |reqs| && forall i :: 0 <= i < |reqs| ==> r[i] == reqs[i].rid
  {
    seq(|reqs|, i requires 0 <= i < |reqs| => reqs[i].rid)
  }

  function Upto(n: nat): multiset<nat>
  {
    if n == 0 then multiset{} else Upto(n - 1) + multiset{n - 1}
  }

  /** Live and freed requests together are the allocated ones, each exactly once. */
  ghost predicate Owned(c: Client)
  {
    multiset(Rids(c.reqs)) + multiset(c.freed) == Upto(c.allocs)
  }

  lemma {:induction false} UptoCounts(n: nat, x: nat)
    ensures Upto(n)[x] == if x < n then 1 else 0
  {
    if n > 0 { UptoCounts(n - 1, x); }
  }

  lemma TwiceCounted(s: seq<nat>, i: nat, j: nat)
    requires i < j < |s| && s[i] == s[j]
    ensures multiset(s)[s[i]] >= 2
  {
    assert s == s[..j] + [s[j]] + s[j + 1..];
    assert s[i] in s[..j];
  }

  /** What Owned says of single requests: ids are distinct and below the allocation count, none is both live
      and freed, none is freed twice, none is lost. */
  lemma OwnedMeans(c: Client)
    requires Owned(c)
    ensures forall i :: 0 <= i < |c.reqs| ==> c.reqs[i].rid < c.allocs && c.reqs[i].rid !in c.freed
    ensures forall i, j :: 0 <= i < j < |c.reqs| ==> c.reqs[i].rid != c.reqs[j].rid
    ensures forall i, j :: 0 <= i < j < |c.freed| ==> c.freed[i] != c.freed[j]
    ensures forall r :: r in c.freed ==> r < c.allocs
    ensures forall r :: 0 <= r < c.allocs ==> r in Rids(c.reqs) || r in c.freed
  {
    var live := Rids(c.reqs);
    forall r: nat
      ensures multiset(live)[r] + multiset(c.freed)[r] == if r < c.allocs then 1 else 0
    {
      UptoCounts(c.allocs, r);
      assert (multiset(live) + multiset(c.freed))[r] == Upto(c.allocs)[r];
    }
    forall i | 0 <= i < |c.reqs|
      ensures c.reqs[i].rid < c.allocs && c.reqs[i].rid !in c.freed
    {
      assert live[i] in multiset(live);
    }
    forall i, j | 0 <= i < j < |c.reqs|
      ensures c.reqs[i].rid != c.reqs[j].rid
    {
      if live[i] == live[j] { TwiceCounted(live, i, j); }
    }
    forall i, j | 0 <= i < j < |c.freed|
      ensures c.freed[i] != c.freed[j]
    {
      if c.freed[i] == c.freed[j] { TwiceCounted(c.freed, i, j); }
    }
    forall r | r in c.freed
      ensures r < c.allocs
    {
      assert r in multiset(c.freed);
    }
    forall r | 0 <= r < c.allocs
      ensures r in live || r in c.freed
    {
      assert r in multiset(live) || r in multiset(c.freed);
    }
  }

  // ----- Completion

  datatype Progress = Open | Done | Broken

  /** A callback after which the request is gone: an error, or for a plain request also the last payload
      or a callback that returns non-zero. */
  predicate Terminal(call: Call)
  {
    !call.nested && (call.rsp.err != 0 || (!call.observe && (!call.rsp.more || call.ret != 0)))
  }

  /** Open while no terminal callback was made for `rid`, Done when one was and nothing after it. */
  function Track(calls: seq<Call>, rid: nat): Progress
  {
    if calls == [] then Open
    else
      var before := Track(calls[..|calls| - 1], rid);
      var call := calls[|calls| - 1];
      if call.rid != rid || call.nested then before
      else if before != Open then Broken
      else if Terminal(call) then Done
      else Open
  }

  lemma {:induction false} TrackMeans(calls: seq<Call>, rid: nat)
    ensures Track(calls, rid) == Open <==> forall k :: 0 <= k < |calls| && calls[k].rid == rid ==> !Terminal(calls[k])
    ensures Track(calls, rid) == Done ==> exists k :: CompletesAt(calls, rid, k)
  {
    if calls != [] {
      var n := |calls| - 1;
      var init := calls[..n];
      TrackMeans(init, rid);
      if Track(init, rid) != Open {
        var k :| 0 <= k < |init| && init[k].rid == rid && Terminal(init[k]);
        assert calls[k] == init[k];
      } else {
        assert forall k :: 0 <= k < n ==> calls[k] == init[k];
      }
      if Track(calls, rid) == Done {
        if Track(init, rid) == Done {
          var k :| CompletesAt(init, rid, k);
          assert CompletesAt(calls, rid, k);
        } else {
          assert CompletesAt(calls, rid, n);
        }
      }
    }
  }

  /** Call `k` is the one terminal callback of `rid` and its last one. */
  ghost predicate CompletesAt(calls: seq<Call>, rid: nat, k: nat)
  {
    && k < |calls| && calls[k].rid == rid && Terminal(calls[k])
    && (forall j :: 0 <= j < k && calls[j].rid == rid ==> !Terminal(calls[j]))
    && (forall j :: k < j < |calls| && calls[j].rid == rid ==> calls[j].nested)
  }

  /** Every callback was made for an accepted request, with its kind. */
  ghost predicate CallsKnown(calls: seq<Call>, accepted: map<nat, bool>)
  {
    forall k :: 0 <= k < |calls| ==>
      && calls[k].rid in accepted && calls[k].observe == accepted[calls[k].rid]
      && (calls[k].nested ==> calls[k].observe)
  }

  /** Every listed request is accepted and not completed, but for those in `done`, about to be removed. */
  ghost predicate ListedOpen(reqs: seq<Req>, calls: seq<Call>, accepted: map<nat, bool>, done: set<nat>)
  {
    forall i :: 0 <= i < |reqs| ==>
      && reqs[i].rid in accepted && reqs[i].observe == accepted[reqs[i].rid]
      && Track(calls, reqs[i].rid) == if reqs[i].rid in done then Done else Open
  }

  ghost predicate FreedDone(freed: seq<nat>, calls: seq<Call>, accepted: map<nat, bool>)
  {
    forall r :: r in freed && r in accepted ==> Track(calls, r) == Done
  }

  ghost predicate Below(accepted: map<nat, bool>, n: nat)
  {
    forall r :: r in accepted ==> r < n
  }

  /** The engine invariant; requests in `done` have had their terminal callback and are about to be removed. */
  ghost predicate InvWith(c: Client, done: set<nat>)
  {
    && Owned(c)
    && Below(c.accepted, c.allocs)
    && CallsKnown(c.calls, c.accepted)
    && ListedOpen(c.reqs, c.calls, c.accepted, done)
    && FreedDone(c.freed, c.calls, c.accepted)
  }

  ghost predicate Inv(c: Client)
  {
    InvWith(c, {})
  }

  lemma {:induction false} NoCalls(calls: seq<Call>, rid: nat)
    requires forall k :: 0 <= k < |calls| ==> calls[k].rid != rid
    ensures Track(calls, rid) == Open
  {
    if calls != [] { NoCalls(calls[..|calls| - 1], rid); }
  }

  lemma SubmitInv(c: Client, d: Draft, now: int, done: set<nat>)
    requires InvWith(c, done) && (forall r :: r in done ==> r < c.allocs)
    ensures InvWith(Submit(c, d, now), done)
  {
    SubmitOwned(c, d, now);
    FreedBelow(c);
    if d.build == Built && c.connected {
      NothingOf(c);
      AcceptInv(c, NewReq(c.allocs, d, now), done);
    }
  }

  lemma SubmitOwned(c: Client, d: Draft, now: int)
    requires Owned(c)
    ensures Owned(Submit(c, d, now))
  {
    if d.build == Built && c.connected {
      AcceptOwned(c, Submit(c, d, now), NewReq(c.allocs, d, now));
    } else if !d.build.NoMemory? {
      RefuseOwned(c, Submit(c, d, now));
    }
  }

  lemma AcceptOwned(c: Client, c1: Client, r: Req)
    requires Owned(c) && c1.reqs == c.reqs + [r] && r.rid == c.allocs
    requires c1.freed == c.freed && c1.allocs == c.allocs + 1
    ensures Owned(c1)
  {
    assert Rids(c1.reqs) == Rids(c.reqs) + [c.allocs];
    assert multiset(Rids(c1.reqs)) == multiset(Rids(c.reqs)) + multiset{c.allocs};
  }

  lemma RefuseOwned(c: Client, c1: Client)
    requires Owned(c) && c1.reqs == c.reqs && c1.freed == c.freed + [c.allocs] && c1.allocs == c.allocs + 1
    ensures Owned(c1)
  {
  }

  lemma NothingOf(c: Client)
    requires CallsKnown(c.calls, c.accepted) && Below(c.accepted, c.allocs)
    ensures Track(c.calls, c.allocs) == Open
  {
    NoCalls(c.calls, c.allocs);
  }

  lemma FreedBelow(c: Client)
    requires Owned(c)
    ensures forall r :: r in c.freed ==> r < c.allocs
    ensures forall i :: 0 <= i < |c.reqs| ==> c.reqs[i].rid < c.allocs
  {
    OwnedMeans(c);
  }

  lemma AcceptInv(c: Client, r: Req, done: set<nat>)
    requires InvWith(c, done) && (forall x :: x in done ==> x < c.allocs)
    requires r.rid == c.allocs && Track(c.calls, r.rid) == Open
    requires forall x :: x in c.freed ==> x < c.allocs
    ensures var accepted := map[c.allocs := r.observe] + c.accepted;
      && Below(accepted, c.allocs + 1) && CallsKnown(c.calls, accepted)
      && ListedOpen(c.reqs + [r], c.calls, accepted, done) && FreedDone(c.freed, c.calls, accepted)
  {
  }

  lemma {:induction false} SubmitAllInv(c: Client, ds: seq<Draft>, now: int, done: set<nat>)
    requires InvWith(c, done) && (forall r :: r in done ==> r < c.allocs)
    ensures InvWith(SubmitAll(c, ds, now), done)
  {
    if ds != [] {
      SubmitAllInv(c, ds[..|ds| - 1], now, done);
      SubmitAllKeeps(c, ds[..|ds| - 1], now);
      SubmitInv(SubmitAll(c, ds[..|ds| - 1], now), ds[|ds| - 1], now, done);
    }
  }

  lemma WithReqInv(c: Client, i: nat, r: Req, done: set<nat>)
    requires InvWith(c, done) && i < |c.reqs| && r.rid == c.reqs[i].rid && r.observe == c.reqs[i].observe
    ensures InvWith(WithReq(c, i, r), done)
  {
    assert Rids(WithReq(c, i, r).reqs) == Rids(c.reqs);
  }

  /** One more callback on request `i`. */
  lemma CallInv(c: Client, i: nat, call: Call, done: set<nat>)
    requires InvWith(c, done) && i < |c.reqs| && call.rid == c.reqs[i].rid && call.observe == c.reqs[i].observe
    requires (call.nested || call.rid !in done) && (call.nested ==> call.observe)
    ensures InvWith(c.(calls := c.calls + [call]), if Terminal(call) then done + {call.rid} else done)
  {
    OwnedMeans(c);
    var c1 := c.(calls := c.calls + [call]);
    assert c1.calls[..|c1.calls| - 1] == c.calls;
    assert forall k :: 0 <= k < |c.reqs| && k != i ==> c.reqs[k].rid != call.rid;
  }

  lemma InvokeInv(c: Client, i: nat, rsp: Rsp, nested: bool, user: User, now: int, done: set<nat>)
    requires i < |c.reqs| && InvWith(c, done)
    requires (nested || c.reqs[i].rid !in done) && (nested ==> c.reqs[i].observe) && (forall r :: r in done ==> r < c.allocs)
    ensures var (c1, ret) := Invoke(c, i, rsp, nested, user, now);
      var rid := c.reqs[i].rid;
      InvWith(c1, if Terminal(Call(rid, c.reqs[i].observe, nested, rsp, ret)) then done + {rid} else done)
    decreases rsp.more
  {
    hide CallsKnown, ListedOpen, FreedDone, Below, SubmitAll;
    var r := c.reqs[i];
    var reaction := user(c.calls, r.rid, rsp);
    var call := Call(r.rid, r.observe, nested, rsp, reaction.ret);
    var c1 := c.(calls := c.calls + [call]);
    var done1 := if Terminal(call) then done + {r.rid} else done;
    OwnedMeans(c);
    CallInv(c, i, call, done);
    if rsp.more && reaction.next.Some? && r.observe {
      InvokeInv(c1, i, ErrorRsp(-ENOTSUP), true, user, now, done1);
      InvokeKeeps(c1, i, ErrorRsp(-ENOTSUP), true, user, now);
      SubmitAllInv(Invoke(c1, i, ErrorRsp(-ENOTSUP), true, user, now).0, reaction.submits, now, done1);
    } else if rsp.more && reaction.next.Some? {
      WithReqInv(c1, i, NextBlock(r, reaction.next.value, now), done1);
      SubmitAllInv(WithReq(c1, i, NextBlock(r, reaction.next.value, now)), reaction.submits, now, done1);
    } else {
      SubmitAllInv(c1, reaction.submits, now, done1);
    }
  }

  lemma RemoveInv(c: Client, i: nat)
    requires i < |c.reqs| && InvWith(c, {c.reqs[i].rid})
    ensures Inv(Remove(c, i))
  {
    OwnedMeans(c);
    RemoveOwned(c, i);
    var c1 := Remove(c, i);
    forall j | 0 <= j < |c1.reqs|
      ensures c1.reqs[j] in c.reqs && c1.reqs[j].rid != c.reqs[i].rid
    {
      assert c1.reqs[j] == c.reqs[if j < i then j else j + 1];
    }
  }

  lemma RemoveOwned(c: Client, i: nat)
    requires Owned(c) && i < |c.reqs|
    ensures Owned(Remove(c, i))
  {
    var rids := Rids(c.reqs);
    assert rids == rids[..i] + [rids[i]] + rids[i + 1..];
    assert Rids(Remove(c, i).reqs) == rids[..i] + rids[i + 1..];
  }

  lemma FinishInv(c: Client, i: nat, rsp: Rsp, user: User, now: int)
    requires i < |c.reqs| && Inv(c) && (rsp.err != 0 || (!c.reqs[i].observe && !rsp.more))
    ensures Inv(Finish(c, i, rsp, user, now))
  {
    hide Invoke, CallsKnown, ListedOpen, FreedDone, Below;
    InvokeInv(c, i, rsp, false, user, now, {});
    InvokeKeeps(c, i, rsp, false, user, now);
    var rid := c.reqs[i].rid;
    assert {} + {rid} == {rid};
    RemoveInv(Invoke(c, i, rsp, false, user, now).0, i);
  }

  lemma CompleteInv(c: Client, i: nat, rsp: Rsp, user: User, now: int)
    requires i < |c.reqs| && Inv(c) && rsp.err == 0 && !rsp.more
    ensures Inv(Complete(c, i, rsp, user, now))
  {
    InvokeKeeps(c, i, rsp, false, user, now);
    var c1 := Invoke(c, i, rsp, false, user, now).0;
    if c.reqs[i].observe {
      InvokeInv(c, i, rsp, false, user, now, {});
      WithReqInv(c1, i, c1.reqs[i].(isPending := false), {});
    } else {
      FinishInv(c, i, rsp, user, now);
    }
  }

  lemma ContinueInv(c: Client, i: nat, rsp: Rsp, user: User, now: int)
    requires i < |c.reqs| && Inv(c) && rsp.more
    requires rsp.err == if c.reqs[i].observe then -EMSGSIZE else 0
    ensures Inv(Continue(c, i, rsp, user, now))
  {
    hide Invoke, CallsKnown, ListedOpen, FreedDone, Below;
    InvokeKeeps(c, i, rsp, false, user, now);
    InvokeInv(c, i, rsp, false, user, now, {});
    var (c1, ret) := Invoke(c, i, rsp, false, user, now);
    var rid := c.reqs[i].rid;
    assert {} + {rid} == {rid};
    if ret != 0 || c.reqs[i].observe { RemoveInv(c1, i); }
  }

  lemma HandleReplyInv(c: Client, i: nat, rx: Packet, user: User, now: int)
    requires i < |c.reqs| && Inv(c)
    ensures Inv(HandleReply(c, i, rx, user, now))
  {
    var r := c.reqs[i];
    if CodeToPosix(rx.code) != 0 {
      FinishInv(c, i, ErrorRsp(CodeToPosix(rx.code)), user, now);
    } else if rx.block2.None? {
      CompleteInv(c, i, Rsp(rx.payload, 0, |rx.payload|, false, 0), user, now);
    } else {
      var option := rx.block2.value;
      match UpdateFromBlock(r.block, option, rx.size2)
      case None => FinishInv(c, i, ErrorRsp(-EBADMSG), user, now);
      case Some(ctx) =>
        if ctx.current < r.block.current {
          WithReqInv(c, i, r.(block := ctx.(current := r.block.current)), {});
        } else {
          var (after, off) := NextOffset(ctx, option, |rx.payload|);
          WithReqInv(c, i, r.(block := after), {});
          var c1 := WithReq(c, i, r.(block := after));
          if off == 0 {
            CompleteInv(c1, i, Rsp(rx.payload, ctx.current, after.total, false, 0), user, now);
          } else {
            ContinueInv(c1, i, Rsp(rx.payload, ctx.current, after.total, true,
                                   if r.observe then -EMSGSIZE else 0), user, now);
          }
        }
    }
  }

  lemma ProcessRxInv(c: Client, rx: Packet, user: User, now: int)
    requires Inv(c)
    ensures Inv(ProcessRx(c, rx, user, now))
  {
    var i := FindMatch(c.reqs, rx);
    if i < |c.reqs| {
      match rx.observe
      case None => HandleReplyInv(c, i, rx, user, now);
      case Some(number) =>
        var r := c.reqs[i].(reply := Reply(number, now));
        WithReqInv(c, i, r, {});
        HandleReplyInv(WithReq(c, i, r), i, rx, user, now);
    }
  }

  lemma PollOneInv(c: Client, i: nat, user: User, now: int)
    requires i < |c.reqs| && Inv(c)
    ensures Inv(PollOne(c, i, user, now).0)
  {
    match Poll(c.reqs[i].pending, now, false)
    case GiveUp => FinishInv(c, i, ErrorRsp(-ETIMEDOUT), user, now);
    case Wait(p, _, _) => WithReqInv(c, i, Polled(c.reqs[i], p, now), {});
  }

  lemma {:induction false} PollPassInv(c: Client, i: nat, user: User, now: int)
    requires i <= |c.reqs| && Inv(c)
    ensures Inv(PollPass(c, i, user, now).0)
    decreases GiveUps(c.reqs[i..], now), |c.reqs| - i
  {
    if i < |c.reqs| {
      if Settled(c.reqs[i]) {
        GiveUpsTail(c.reqs, i, now);
        PollPassInv(c, i + 1, user, now);
      } else {
        PollOneInv(c, i, user, now);
        PollOneKeeps(c, i, user, now);
        if i + 1 < |c.reqs| {
          var j := if GivesUp(c.reqs[i], now) then i else i + 1;
          PollPassInv(PollOne(c, i, user, now).0, j, user, now);
        }
      }
    }
  }

  lemma {:induction false} CancelAllInv(c: Client, reason: int, user: User, now: int)
    requires !c.connected && Inv(c) && reason != 0
    ensures Inv(CancelAll(c, reason, user, now))
    decreases |c.reqs|
  {
    if c.reqs != [] {
      InvokeKeeps(c, 0, ErrorRsp(reason), false, user, now);
      FinishInv(c, 0, ErrorRsp(reason), user, now);
      CancelAllInv(Finish(c, 0, ErrorRsp(reason), user, now), reason, user, now);
    }
  }

  lemma ApplyInv(c: Client, e: Event, user: User)
    requires Inv(c)
    ensures Inv(Apply(c, e, user))
  {
    hide PollPass, ProcessRx, Submit, CancelAll, CallsKnown, ListedOpen, FreedDone, Below;
    var c1 := Apply(c, e, user);
    match e.step
    case SubmitStep(d) =>
      SubmitInv(c, d, e.now, {});
      assert Inv(c1);
    case PollStep =>
      PollPassInv(c, 0, user, e.now);
      assert Inv(c1);
    case RxStep(rx) =>
      ProcessRxInv(c, rx, user, e.now);
      assert Inv(c1);
    case NextStep(rid, next) =>
      var i := IndexOf(c.reqs, rid);
      if i < |c.reqs| { WithReqInv(c, i, NextBlock(c.reqs[i], next, e.now), {}); }
      assert Inv(c1);
    case ConnectStep =>
      ConnectedInv(c, true);
      assert Inv(c1);
    case DisconnectStep =>
      ConnectedInv(c, false);
      CancelAllInv(c.(connected := false), -ESHUTDOWN, user, e.now);
      assert Inv(c1);
  }

  lemma ConnectedInv(c: Client, connected: bool)
    requires Inv(c)
    ensures Inv(c.(connected := connected))
  {
    assert Owned(c.(connected := connected));
  }

  lemma {:induction false} RunInv(events: seq<Event>, user: User)
    ensures Inv(Run(events, user))
  {
    if events != [] {
      RunInv(events[..|events| - 1], user);
      ApplyInv(Run(events[..|events| - 1], user), events[|events| - 1], user);
    }
  }

  /** In every run, whatever packets arrive and whatever callbacks do: a request accepted for sending either is
      still listed and has had no terminal callback, or is freed and has had exactly one, its last. A request
      refused gets no callback. */
  lemma ExactlyOnceCompletion(events: seq<Event>, user: User, rid: nat)
    ensures var c := Run(events, user);
      && (rid in c.accepted && rid in Rids(c.reqs) ==>
            rid !in c.freed && forall k :: 0 <= k < |c.calls| && c.calls[k].rid == rid ==> !Terminal(c.calls[k]))
      && (rid in c.accepted && rid !in Rids(c.reqs) ==>
            rid in c.freed && exists k :: CompletesAt(c.calls, rid, k))
      && (rid !in c.accepted ==> forall k :: 0 <= k < |c.calls| ==> c.calls[k].rid != rid)
  {
    var c := Run(events, user);
    RunInv(events, user);
    OwnedMeans(c);
    TrackMeans(c.calls, rid);
  }

  /** In every run each allocated request is live or freed, never both, and freed at most once. */
  lemma OwnershipOverRuns(events: seq<Event>, user: User)
    ensures var c := Run(events, user);
      && (forall rid :: 0 <= rid < c.allocs ==> (rid in Rids(c.reqs) <==> rid !in c.freed))
      && (forall i, j :: 0 <= i < j < |c.freed| ==> c.freed[i] != c.freed[j])
      && (forall i, j :: 0 <= i < j < |c.reqs| ==> c.reqs[i].rid != c.reqs[j].rid)
      && |c.reqs| + |c.freed| == c.allocs
  {
    var c := Run(events, user);
    RunInv(events, user);
    OwnedMeans(c);
    UptoSize(c.allocs);
    assert |multiset(Rids(c.reqs)) + multiset(c.freed)| == |c.reqs| + |c.freed|;
  }

  lemma {:induction false} UptoSize(n: nat)
    ensures |Upto(n)| == n
  {
    if n > 0 { UptoSize(n - 1); }
  }

  // ----- Disconnect

  /** The callbacks a disconnect makes: one for each listed request, in list order, with -ESHUTDOWN. */
  ghost predicate OneShutdownEach(reqs: seq<Req>, calls: seq<Call>, reason: int)
  {
    |calls| == |reqs| && forall k :: 0 <= k < |reqs| ==> calls[k].rid == reqs[k].rid && calls[k].rsp == ErrorRsp(reason)
  }

  lemma OneShutdownMore(reqs: seq<Req>, calls: seq<Call>, call: Call, reason: int)
    requires reqs != [] && call.rid == reqs[0].rid && call.rsp == ErrorRsp(reason)
    requires OneShutdownEach(reqs[1..], calls, reason)
    ensures OneShutdownEach(reqs, [call] + calls, reason)
  {
    var all := [call] + calls;
    forall k | 0 <= k < |reqs|
      ensures all[k].rid == reqs[k].rid && all[k].rsp == ErrorRsp(reason)
    {
      if k > 0 { assert reqs[k] == reqs[1..][k - 1] && all[k] == calls[k - 1]; }
    }
  }

  lemma NoShutdowns(calls: seq<Call>, reason: int)
    ensures OneShutdownEach([], calls[|calls|..], reason)
  {
  }

  lemma {:induction false} CancelAllNotifies(c: Client, reason: int, user: User, now: int)
    requires !c.connected
    ensures var c1 := CancelAll(c, reason, user, now);
      && c1.reqs == [] && !c1.connected
      && c.calls <= c1.calls && OneShutdownEach(c.reqs, c1.calls[|c.calls|..], reason)
      && c1.wakeups == c.wakeups && c1.accepted == c.accepted
    decreases |c.reqs|
  {
    hide Finish, OneShutdownEach;
    if c.reqs == [] {
      NoShutdowns(c.calls, reason);
    } else {
      var c2 := Finish(c, 0, ErrorRsp(reason), user, now);
      var call := FinishFirst(c, reason, user, now);
      CancelAllNotifies(c2, reason, user, now);
      var c3 := CancelAll(c2, reason, user, now);
      assert c3.calls[|c.calls|..] == [call] + c3.calls[|c2.calls|..];
      OneShutdownMore(c.reqs, c3.calls[|c2.calls|..], call, reason);
    }
  }

  /** The first listed request of a disconnected client is called back once and dropped, nothing else changes. */
  lemma FinishFirst(c: Client, reason: int, user: User, now: int) returns (call: Call)
    requires !c.connected && c.reqs != []
    ensures var c2 := Finish(c, 0, ErrorRsp(reason), user, now);
      && c2.reqs == c.reqs[1..] && c2.calls == c.calls + [call] && !c2.connected
      && c2.wakeups == c.wakeups && c2.accepted == c.accepted
      && call.rid == c.reqs[0].rid && call.rsp == ErrorRsp(reason)
  {
    var rsp := ErrorRsp(reason);
    InvokeKeeps(c, 0, rsp, false, user, now);
    var reaction := user(c.calls, c.reqs[0].rid, rsp);
    call := Call(c.reqs[0].rid, c.reqs[0].observe, false, rsp, reaction.ret);
    var c1 := c.(calls := c.calls + [call]);
    SubmitAllKeeps(c1, reaction.submits, now);
    SubmitAllRefused(c1, reaction.submits, now);
  }

  lemma {:induction false} SubmitAllRefused(c: Client, ds: seq<Draft>, now: int)
    requires !c.connected
    ensures var c1 := SubmitAll(c, ds, now); c1.accepted == c.accepted && c1.reqs == c.reqs && !c1.connected
  {
    if ds != [] { SubmitAllRefused(c, ds[..|ds| - 1], now); }
  }

  /** After a disconnect in any run the list is empty, each request that was listed got one more callback,
      -ESHUTDOWN, and nothing its callbacks tried to submit was accepted. */
  lemma DisconnectEmptiesTheList(events: seq<Event>, user: User, now: int)
    ensures var c := Run(events, user);
      var c1 := Apply(c, Event(now, DisconnectStep), user);
      && c1.reqs == [] && |c1.freed| == c1.allocs
      && c.calls <= c1.calls && OneShutdownEach(c.reqs, c1.calls[|c.calls|..], -108)
      && c1.accepted == c.accepted
      && forall rid :: rid in c1.accepted ==> exists k :: CompletesAt(c1.calls, rid, k)
  {
    var c := Run(events, user);
    var e := Event(now, DisconnectStep);
    var longer := events + [e];
    assert longer[..|longer| - 1] == events;
    CancelAllNotifies(c.(connected := false), -ESHUTDOWN, user, now);
    OwnershipOverRuns(longer, user);
    forall rid | rid in c.accepted
      ensures exists k :: CompletesAt(Apply(c, e, user).calls, rid, k)
    {
      ExactlyOnceCompletion(longer, user, rid);
    }
  }

  // ----- What only grows, and that the history records what the user's callbacks answered

  ghost predicate Faithful(calls: seq<Call>, user: User)
  {
    forall k :: 0 <= k < |calls| ==> calls[k].ret == user(calls[..k], calls[k].rid, calls[k].rsp).ret
  }

  ghost predicate Grows(c: Client, c1: Client, user: User)
  {
    && c.calls <= c1.calls && Includes(c1.accepted, c.accepted)
    && (Faithful(c.calls, user) ==> Faithful(c1.calls, user))
  }

  lemma FaithfulCall(calls: seq<Call>, call: Call, user: User)
    requires Faithful(calls, user) && call.ret == user(calls, call.rid, call.rsp).ret
    ensures Faithful(calls + [call], user)
  {
    var all := calls + [call];
    forall k | 0 <= k < |all|
      ensures all[..k] == if k < |calls| then calls[..k] else calls
    {
    }
  }

  lemma InvokeGrows(c: Client, i: nat, rsp: Rsp, nested: bool, user: User, now: int)
    requires i < |c.reqs|
    ensures Grows(c, Invoke(c, i, rsp, nested, user, now).0, user)
    decreases rsp.more
  {
    var r := c.reqs[i];
    var reaction := user(c.calls, r.rid, rsp);
    var call := Call(r.rid, r.observe, nested, rsp, reaction.ret);
    var c1 := c.(calls := c.calls + [call]);
    if Faithful(c.calls, user) { FaithfulCall(c.calls, call, user); }
    if rsp.more && reaction.next.Some? && r.observe {
      InvokeGrows(c1, i, ErrorRsp(-ENOTSUP), true, user, now);
      SubmitAllKeeps(Invoke(c1, i, ErrorRsp(-ENOTSUP), true, user, now).0, reaction.submits, now);
    } else if rsp.more && reaction.next.Some? {
      SubmitAllKeeps(WithReq(c1, i, NextBlock(r, reaction.next.value, now)), reaction.submits, now);
    } else {
      SubmitAllKeeps(c1, reaction.submits, now);
    }
  }

  lemma FirstCall(c: Client, i: nat, rsp: Rsp, user: User, now: int)
    requires i < |c.reqs|
    ensures var c1 := Invoke(c, i, rsp, false, user, now).0;
      |c.calls| < |c1.calls| && c1.calls[|c.calls|].rid == c.reqs[i].rid && c1.calls[|c.calls|].rsp == rsp
  {
    var r := c.reqs[i];
    var reaction := user(c.calls, r.rid, rsp);
    var c1 := c.(calls := c.calls + [Call(r.rid, r.observe, false, rsp, reaction.ret)]);
    if rsp.more && reaction.next.Some? && r.observe {
      InvokeKeeps(c1, i, ErrorRsp(-ENOTSUP), true, user, now);
      SubmitAllKeeps(Invoke(c1, i, ErrorRsp(-ENOTSUP), true, user, now).0, reaction.submits, now);
    } else if rsp.more && reaction.next.Some? {
      SubmitAllKeeps(WithReq(c1, i, NextBlock(r, reaction.next.value, now)), reaction.submits, now);
    } else {
      SubmitAllKeeps(c1, reaction.submits, now);
    }
  }

  /** A block that is not an old one is handed over without an error, and with get_next if and only if more are announced or
      it overruns the announced size. So a last block that overruns does not end the transfer. */
  lemma GetNextOffered(c: Client, i: nat, rx: Packet, ctx: BlockCtx, user: User, now: int)
    requires i < |c.reqs| && !c.reqs[i].observe && CodeToPosix(rx.code) == 0 && rx.block2.Some?
    requires UpdateFromBlock(c.reqs[i].block, rx.block2.value, rx.size2) == Some(ctx)
    requires ctx.current >= c.reqs[i].block.current && ctx.current + |rx.payload| > 0
    ensures var c1 := HandleReply(c, i, rx, user, now);
      && |c.calls| < |c1.calls|
      && c1.calls[|c.calls|].rsp == Rsp(rx.payload, ctx.current, ctx.total,
           More(rx.block2.value) || (ctx.total != 0 && ctx.total < ctx.current + |rx.payload|), 0)
  {
    var (after, off) := NextOffset(ctx, rx.block2.value, |rx.payload|);
    var c1 := WithReq(c, i, c.reqs[i].(block := after));
    FirstCall(c1, i, Rsp(rx.payload, ctx.current, after.total, off != 0, 0), user, now);
  }

  lemma HandleReplyGrows(c: Client, i: nat, rx: Packet, user: User, now: int)
    requires i < |c.reqs|
    ensures Grows(c, HandleReply(c, i, rx, user, now), user)
  {
    var r := c.reqs[i];
    if CodeToPosix(rx.code) != 0 {
      InvokeGrows(c, i, ErrorRsp(CodeToPosix(rx.code)), false, user, now);
    } else if rx.block2.None? {
      InvokeGrows(c, i, Rsp(rx.payload, 0, |rx.payload|, false, 0), false, user, now);
    } else {
      var option := rx.block2.value;
      match UpdateFromBlock(r.block, option, rx.size2)
      case None => InvokeGrows(c, i, ErrorRsp(-EBADMSG), false, user, now);
      case Some(ctx) =>
        var (after, off) := NextOffset(ctx, option, |rx.payload|);
        var c1 := WithReq(c, i, r.(block := after));
        InvokeGrows(c1, i, Rsp(rx.payload, ctx.current, after.total, off != 0,
                               if off != 0 && r.observe then -EMSGSIZE else 0), false, user, now);
    }
  }

  lemma {:induction false} PollPassGrows(c: Client, i: nat, user: User, now: int)
    requires i <= |c.reqs|
    ensures Grows(c, PollPass(c, i, user, now).0, user)
    decreases GiveUps(c.reqs[i..], now), |c.reqs| - i
  {
    if i < |c.reqs| {
      if Settled(c.reqs[i]) {
        GiveUpsTail(c.reqs, i, now);
        PollPassGrows(c, i + 1, user, now);
      } else {
        InvokeGrows(c, i, ErrorRsp(-ETIMEDOUT), false, user, now);
        PollOneKeeps(c, i, user, now);
        if i + 1 < |c.reqs| {
          PollPassGrows(PollOne(c, i, user, now).0, if GivesUp(c.reqs[i], now) then i else i + 1, user, now);
        }
      }
    }
  }

  lemma {:induction false} CancelAllGrows(c: Client, reason: int, user: User, now: int)
    requires !c.connected
    ensures Grows(c, CancelAll(c, reason, user, now), user)
    decreases |c.reqs|
  {
    if c.reqs != [] {
      InvokeKeeps(c, 0, ErrorRsp(reason), false, user, now);
      InvokeGrows(c, 0, ErrorRsp(reason), false, user, now);
      CancelAllGrows(Finish(c, 0, ErrorRsp(reason), user, now), reason, user, now);
    }
  }

  lemma ApplyGrows(c: Client, e: Event, user: User)
    ensures Grows(c, Apply(c, e, user), user)
  {
    hide PollPass, HandleReply, CancelAll;
    match e.step
    case SubmitStep(_) =>
    case PollStep => PollPassGrows(c, 0, user, e.now);
    case RxStep(rx) =>
      var i := FindMatch(c.reqs, rx);
      if i < |c.reqs| {
        HandleReplyGrows(c, i, rx, user, e.now);
        if rx.observe.Some? {
          var r := c.reqs[i].(reply := Reply(rx.observe.value, e.now));
          HandleReplyGrows(WithReq(c, i, r), i, rx, user, e.now);
        }
      }
    case NextStep(_, _) =>
    case ConnectStep =>
    case DisconnectStep => CancelAllGrows(c.(connected := false), -ESHUTDOWN, user, e.now);
  }

  lemma {:induction false} RunFaithful(events: seq<Event>, user: User)
    ensures Faithful(Run(events, user).calls, user)
  {
    if events != [] {
      RunFaithful(events[..|events| - 1], user);
      ApplyGrows(Run(events[..|events| - 1], user), events[|events| - 1], user);
    }
  }
}
