/** Observations over whole runs of the engine: which notifications reach the callback, and when an observation ends. */
module ObserveRuns {
  import opened Common
  import opened ObserveOrder
  import opened Engine
  import opened EngineInvariants
  import opened PollDeadlines
  import opened QuietSteps

  /** The packet of this event is taken for an answer to `rid`. */
  predicate Reaches(c: Client, e: Event, rid: nat)
  {
    e.step.RxStep? && (var i := FindMatch(c.reqs, e.step.rx); i < |c.reqs| && c.reqs[i].rid == rid)
  }

  /** A successful response to an observation: a notification, or a plain answer without an Observe option. */
  datatype Arrival = Note(n: Notification) | Plain(payload: seq<byte>)

  /** The packet is that response, and not block-wise. */
  predicate Carries(rx: Packet, now: int, a: Arrival)
  {
    && CodeToPosix(rx.code) == 0 && rx.block2 == None
    && match a
       case Note(n) => rx.observe == Some(WireSeq(n)) && n.arrived == now && rx.payload == n.payload
       case Plain(payload) => rx.observe == None && rx.payload == payload
  }

  /** The packet of this event is an error reply, with or without an Observe option. */
  predicate Refuses(e: Event)
  {
    e.step.RxStep? && CodeToPosix(e.step.rx.code) != 0
  }

  /** Everything that reaches `rid` is an error reply or a whole response; `meaning` says which one each event carries. */
  ghost predicate OnlyWhole(events: seq<Event>, user: User, rid: nat, meaning: nat -> Arrival)
  {
    forall n :: 0 <= n < |events| && Reaches(Run(events[..n], user), events[n], rid) && !Refuses(events[n]) ==>
      Carries(events[n].step.rx, events[n].now, meaning(n))
  }

  /** A successful response reaches `rid`. */
  predicate Responded(c: Client, e: Event, rid: nat)
  {
    Reaches(c, e, rid) && !Refuses(e)
  }

  function Arrivals(events: seq<Event>, user: User, rid: nat, meaning: nat -> Arrival): seq<Arrival>
  {
    if events == [] then []
    else
      var n := |events| - 1;
      Arrivals(events[..n], user, rid, meaning) +
      if Responded(Run(events[..n], user), events[n], rid) then [meaning(n)] else []
  }

  /** The payloads the callback of `rid` was given. */
  function Handed(calls: seq<Call>, rid: nat): seq<seq<byte>>
  {
    if calls == [] then []
    else
      var call := calls[|calls| - 1];
      Handed(calls[..|calls| - 1], rid) + if Payload(call, rid) then [call.rsp.data] else []
  }

  function PayloadOf(a: Arrival): seq<byte>
  {
    if a.Note? then a.n.payload else a.payload
  }

  function Payloads(arrivals: seq<Arrival>): (r: seq<seq<byte>>)
    ensures |r| == |arrivals| && forall i :: 0 <= i < |arrivals| ==> r[i] == PayloadOf(arrivals[i])
  {
    seq(|arrivals|, i requires 0 <= i < |arrivals| => PayloadOf(arrivals[i]))
  }

  /** The notifications among the responses. */
  function Notes(arrivals: seq<Arrival>): seq<Notification>
  {
    if arrivals == [] then []
    else
      var last := arrivals[|arrivals| - 1];
      Notes(arrivals[..|arrivals| - 1]) + if last.Note? then [last.n] else []
  }

  /** What the reply state lets through: plain answers always. */
  function Passed(arrivals: seq<Arrival>): seq<Arrival>
  {
    if arrivals == [] then []
    else
      var init, last := arrivals[..|arrivals| - 1], arrivals[|arrivals| - 1];
      Passed(init) +
      if last.Note? && !ReplyIsNewer(Deliver(INITIAL_REPLY, Notes(init)).1, WireSeq(last.n), last.n.arrived) then [] else [last]
  }

  /** The reference: plain answers, and each notification whose counter is above all those before it. */
  function Kept(arrivals: seq<Arrival>): seq<Arrival>
  {
    if arrivals == [] then []
    else
      var init, last := arrivals[..|arrivals| - 1], arrivals[|arrivals| - 1];
      Kept(init) +
      if last.Note? && exists i :: 0 <= i < |Notes(init)| && Notes(init)[i].counter >= last.n.counter then [] else [last]
  }

  lemma NotesLast(arrivals: seq<Arrival>, last: Arrival)
    ensures Notes(arrivals + [last]) == Notes(arrivals) + if last.Note? then [last.n] else []
  {
    assert (arrivals + [last])[..|arrivals|] == arrivals;
  }

  /** The client's test of the last notification agrees with the reference. */
  lemma LastTest(notes: seq<Notification>, n: Notification)
    requires Arrive(notes + [n])
    ensures Arrive(notes)
    ensures ReplyIsNewer(Deliver(INITIAL_REPLY, notes).1, WireSeq(n), n.arrived) <==>
      forall i :: 0 <= i < |notes| ==> notes[i].counter < n.counter
  {
    hide Deliver, ReplyIsNewer, FreshReply;
    var ns := notes + [n];
    assert ns[..|ns| - 1] == notes;
    PrefixArrives(ns, |ns| - 1);
    TestsAgree(ns);
    DeliverIsFresh(notes);
    assert forall i :: 0 <= i < |notes| ==> ns[i] == notes[i];
  }

  lemma FreshLast(notes: seq<Notification>, n: Notification)
    ensures Fresh(notes + [n]) == Fresh(notes) + if forall i :: 0 <= i < |notes| ==> notes[i].counter < n.counter then [n] else []
  {
    var ns := notes + [n];
    assert ns[..|ns| - 1] == notes && forall i :: 0 <= i < |notes| ==> ns[i] == notes[i];
  }

  lemma {:induction false} PassedIsKept(arrivals: seq<Arrival>)
    requires Arrive(Notes(arrivals))
    ensures Passed(arrivals) == Kept(arrivals)
  {
    hide Deliver, ReplyIsNewer, Arrive, Notes;
    if arrivals != [] {
      var init, last := arrivals[..|arrivals| - 1], arrivals[|arrivals| - 1];
      NotesLast(init, last);
      assert arrivals == init + [last];
      if last.Note? {
        LastTest(Notes(init), last.n);
      } else {
        assert Notes(arrivals) == Notes(init);
      }
      PassedIsKept(init);
    }
  }

  lemma KeptLast(arrivals: seq<Arrival>, last: Arrival)
    ensures var notes := Notes(arrivals);
      Kept(arrivals + [last]) ==
        if last.Plain? || forall i :: 0 <= i < |notes| ==> notes[i].counter < last.n.counter then Kept(arrivals) + [last]
        else Kept(arrivals)
  {
    hide Notes;
    assert (arrivals + [last])[..|arrivals|] == arrivals;
  }

  lemma {:induction false} NotesOfKept(arrivals: seq<Arrival>)
    ensures Notes(Kept(arrivals)) == Fresh(Notes(arrivals))
  {
    if arrivals != [] {
      hide Fresh, Kept, Notes;
      var init, last := arrivals[..|arrivals| - 1], arrivals[|arrivals| - 1];
      assert arrivals == init + [last];
      NotesOfKept(init);
      NotesLast(init, last);
      KeptLast(init, last);
      NotesLast(Kept(init), last);
      if last.Note? {
        FreshLast(Notes(init), last.n);
        assert Fresh(Notes(init)) + [] == Fresh(Notes(init));
      } else {
        assert Notes(init) + [] == Notes(init) && Notes(Kept(init)) + [] == Notes(Kept(init));
      }
    }
  }

  /** What was handed over, and the reply state kept, are those of the notifications that arrived. */
  ghost predicate ObserveInv(c: Client, rid: nat, arrivals: seq<Arrival>)
  {
    && Handed(c.calls, rid) == Payloads(Passed(arrivals))
    && (Lookup(c.reqs, rid).Some? ==> Lookup(c.reqs, rid).value.reply == Deliver(INITIAL_REPLY, Notes(arrivals)).1)
    && (rid >= c.allocs ==> arrivals == [])
  }

  lemma {:induction false} HandedGrows(calls: seq<Call>, calls1: seq<Call>, rid: nat)
    requires calls <= calls1 && forall k :: |calls| <= k < |calls1| ==> !Payload(calls1[k], rid)
    ensures Handed(calls1, rid) == Handed(calls, rid)
    decreases |calls1|
  {
    if |calls| < |calls1| {
      HandedGrows(calls, calls1[..|calls1| - 1], rid);
    } else {
      assert calls1 == calls;
    }
  }

  lemma QuietKeepsObserve(c: Client, c1: Client, rid: nat, arrivals: seq<Arrival>)
    requires Inv(c) && ObserveInv(c, rid, arrivals) && Quiet(c, c1, rid)
    ensures ObserveInv(c1, rid, arrivals)
  {
    HandedGrows(c.calls, c1.calls, rid);
  }

  /** A response that reaches `rid`: handed over exactly when it is plain or newer than the last notification. */
  lemma ResponseKeeps(c: Client, rx: Packet, user: User, now: int, rid: nat, arrivals: seq<Arrival>, a: Arrival)
    requires Inv(c) && ObserveInv(c, rid, arrivals) && Carries(rx, now, a)
    requires var i := FindMatch(c.reqs, rx); i < |c.reqs| && c.reqs[i].rid == rid
    ensures ObserveInv(ProcessRx(c, rx, user, now), rid, arrivals + [a])
  {
    hide Complete, ListedOpen, FreedDone, CallsKnown, Below, Notes, Passed, Handed, Deliver;
    var i := FindMatch(c.reqs, rx);
    LookupMember(c, i);
    OwnedMeans(c);
    OneMore(arrivals, a);
    if a.Plain? {
      PayloadHanded(c, i, rx.payload, user, now, rid);
    } else if ReplyIsNewer(c.reqs[i].reply, WireSeq(a.n), now) {
      var r := c.reqs[i].(reply := ReplyFor(a.n));
      WithReqInv(c, i, r, {});
      PayloadHanded(WithReq(c, i, r), i, rx.payload, user, now, rid);
    }
  }

  /** What one more response changes. */
  lemma OneMore(arrivals: seq<Arrival>, a: Arrival)
    ensures var reply := Deliver(INITIAL_REPLY, Notes(arrivals)).1;
      var newer := a.Note? && ReplyIsNewer(reply, WireSeq(a.n), a.n.arrived);
      && Deliver(INITIAL_REPLY, Notes(arrivals + [a])).1 == (if newer then ReplyFor(a.n) else reply)
      && Payloads(Passed(arrivals + [a])) == Payloads(Passed(arrivals)) + if newer || a.Plain? then [PayloadOf(a)] else []
  {
    hide ReplyIsNewer;
    var all := arrivals + [a];
    assert all[..|all| - 1] == arrivals;
    if a.Note? {
      var ns := Notes(arrivals) + [a.n];
      assert Notes(all) == ns && ns[..|ns| - 1] == Notes(arrivals);
    } else {
      assert Notes(all) == Notes(arrivals);
    }
  }

  /** A payload handed over whole. */
  lemma PayloadHanded(c: Client, i: nat, payload: seq<byte>, user: User, now: int, rid: nat)
    requires Inv(c) && i < |c.reqs| && c.reqs[i].rid == rid
    ensures var c1 := Complete(c, i, Rsp(payload, 0, |payload|, false, 0), user, now);
      && Handed(c1.calls, rid) == Handed(c.calls, rid) + [payload] && c1.allocs >= c.allocs
      && (Lookup(c1.reqs, rid).Some? ==> Lookup(c1.reqs, rid).value.reply == c.reqs[i].reply)
  {
    hide Complete, ListedOpen, FreedDone, CallsKnown, Below;
    var rsp := Rsp(payload, 0, |payload|, false, 0);
    CompletePayload(c, i, rsp, user, now, rid);
    var c1 := Complete(c, i, rsp, user, now);
    assert c1.calls[..|c1.calls| - 1] == c.calls;
  }

  lemma CompletePayload(c: Client, i: nat, rsp: Rsp, user: User, now: int, rid: nat)
    requires Inv(c) && i < |c.reqs| && c.reqs[i].rid == rid && !rsp.more && rsp.err == 0
    ensures var c1 := Complete(c, i, rsp, user, now);
      && (exists ret :: c1.calls == c.calls + [Call(rid, c.reqs[i].observe, false, rsp, ret)])
      && c1.allocs >= c.allocs
      && (if c.reqs[i].observe
          then Lookup(c1.reqs, rid) == Some(c.reqs[i].(isPending := false)) else Lookup(c1.reqs, rid) == None)
  {
    var (c0, ret) := Invoke(c, i, rsp, false, user, now);
    InvokeKeeps(c, i, rsp, false, user, now);
    var call := Call(rid, c.reqs[i].observe, false, rsp, ret);
    var reaction := user(c.calls, rid, rsp);
    SubmitAllKeeps(c.(calls := c.calls + [call]), reaction.submits, now);
    SubmitAllQuiet(c.(calls := c.calls + [call]), reaction.submits, now, rid);
    LookupMember(c0, i);
    RemoveQuiet(c0, i, rid);
    WithReqQuiet(c0, i, c0.reqs[i].(isPending := c0.reqs[i].isPending), rid);
    var r1 := c0.reqs[i].(isPending := false);
    WithReqOwned(c0, i, r1);
    LookupMember(WithReq(c0, i, r1), i);
  }

  lemma WithReqOwned(c: Client, i: nat, r: Req)
    requires Owned(c) && i < |c.reqs| && r.rid == c.reqs[i].rid
    ensures Owned(WithReq(c, i, r))
  {
    assert Rids(WithReq(c, i, r).reqs) == Rids(c.reqs);
  }

  lemma OtherRxQuiet(c: Client, rx: Packet, user: User, now: int, rid: nat)
    requires Owned(c) && !Reaches(c, Event(now, RxStep(rx)), rid)
    ensures Quiet(c, ProcessRx(c, rx, user, now), rid)
  {
    var i := FindMatch(c.reqs, rx);
    if i < |c.reqs| {
      var c1 := ProcessRx(c, rx, user, now);
      if rx.observe.None? {
        OtherReplyQuiet(c, i, rx, user, now, rid);
        assert Quiet(c, c1, rid);
      } else {
        var r := c.reqs[i].(reply := Reply(rx.observe.value, now));
        WithReqQuiet(c, i, r, rid);
        OtherReplyQuiet(WithReq(c, i, r), i, rx, user, now, rid);
        QuietTransitive(c, WithReq(c, i, r), HandleReply(WithReq(c, i, r), i, rx, user, now), rid);
        assert Quiet(c, c1, rid);
      }
    }
  }

  /** A step whose packet, if any, reaches another request. */
  lemma OtherStepQuiet(c: Client, e: Event, user: User, rid: nat)
    requires Inv(c) && !Reaches(c, e, rid)
    requires e.step.NextStep? && e.step.rid == rid ==> Lookup(c.reqs, rid).Some? ==> Lookup(c.reqs, rid).value.observe
    ensures Quiet(c, Apply(c, e, user), rid)
  {
    hide PollPass, ProcessRx, CancelAll, Submit, CallsKnown, ListedOpen, FreedDone, Below;
    match e.step
    case SubmitStep(d) => SubmitQuiet(c, d, e.now, rid);
    case PollStep => PollPassQuiet(c, 0, user, e.now, rid);
    case RxStep(rx) => OtherRxQuiet(c, rx, user, e.now, rid);
    case NextStep(r, next) =>
      var i := IndexOf(c.reqs, r);
      if i < |c.reqs| {
        LookupMember(c, i);
        if !c.reqs[i].observe { WithReqQuiet(c, i, NextBlock(c.reqs[i], next, e.now), rid); }
      }
    case ConnectStep =>
    case DisconnectStep =>
      ConnectedInv(c, false);
      CancelAllQuiet(c.(connected := false), -ESHUTDOWN, user, e.now, rid);
  }

  /** `get_next` is not called for `rid`: no whole response offers it. */
  predicate NoGetNext(events: seq<Event>, rid: nat)
  {
    forall n :: 0 <= n < |events| && events[n].step.NextStep? ==> events[n].step.rid != rid
  }

  lemma {:induction false} ObserveOverRuns(events: seq<Event>, user: User, rid: nat, meaning: nat -> Arrival)
    requires OnlyWhole(events, user, rid, meaning) && NoGetNext(events, rid)
    ensures ObserveInv(Run(events, user), rid, Arrivals(events, user, rid, meaning))
  {
    if events != [] {
      var n := |events| - 1;
      var init := events[..n];
      assert forall m :: 0 <= m < n ==> init[..m] == events[..m];
      ObserveOverRuns(init, user, rid, meaning);
      RunInv(init, user);
      ObserveStep(Run(init, user), events[n], user, rid, Arrivals(init, user, rid, meaning), meaning(n));
    }
  }

  lemma ObserveStep(c: Client, e: Event, user: User, rid: nat, arrivals: seq<Arrival>, a: Arrival)
    requires Inv(c) && ObserveInv(c, rid, arrivals)
    requires Responded(c, e, rid) ==> Carries(e.step.rx, e.now, a)
    requires e.step.NextStep? ==> e.step.rid != rid
    ensures ObserveInv(Apply(c, e, user), rid, arrivals + if Responded(c, e, rid) then [a] else [])
  {
    hide PollPass, ProcessRx, CancelAll, Submit, Quiet, ObserveInv, Carries, FindMatch, Inv;
    assert arrivals + [] == arrivals;
    if Responded(c, e, rid) {
      ResponseKeeps(c, e.step.rx, user, e.now, rid, arrivals, a);
    } else if Reaches(c, e, rid) {
      ErrorKeeps(c, e.step.rx, user, e.now, rid, arrivals);
    } else {
      OtherStepQuiet(c, e, user, rid);
      QuietKeepsObserve(c, Apply(c, e, user), rid, arrivals);
    }
  }

  /** An error reply that reaches `rid` ends it, or is too old and changes nothing. */
  lemma ErrorKeeps(c: Client, rx: Packet, user: User, now: int, rid: nat, arrivals: seq<Arrival>)
    requires Inv(c) && ObserveInv(c, rid, arrivals) && CodeToPosix(rx.code) != 0
    requires var i := FindMatch(c.reqs, rx); i < |c.reqs| && c.reqs[i].rid == rid
    ensures ObserveInv(ProcessRx(c, rx, user, now), rid, arrivals)
  {
    hide Deliver, Finish;
    var i := FindMatch(c.reqs, rx);
    var rsp := ErrorRsp(CodeToPosix(rx.code));
    OwnedMeans(c);
    if rx.observe.None? {
      FinishedGone(c, i, rsp, user, now, rid);
    } else if ReplyIsNewer(c.reqs[i].reply, rx.observe.value, now) {
      var r := c.reqs[i].(reply := Reply(rx.observe.value, now));
      WithReqOwned(c, i, r);
      FinishedGone(WithReq(c, i, r), i, rsp, user, now, rid);
    }
  }

  lemma FinishedGone(c: Client, i: nat, rsp: Rsp, user: User, now: int, rid: nat)
    requires Owned(c) && i < |c.reqs| && c.reqs[i].rid == rid && rsp.err != 0 && !rsp.more
    ensures var c1 := Finish(c, i, rsp, user, now);
      Handed(c1.calls, rid) == Handed(c.calls, rid) && Lookup(c1.reqs, rid) == None && c.allocs <= c1.allocs
  {
    hide Invoke;
    FinishQuiet(c, i, rsp, user, now, rid);
    HandedGrows(c.calls, Finish(c, i, rsp, user, now).calls, rid);
    InvokeKeeps(c, i, rsp, false, user, now);
    InvokeQuiet(c, i, rsp, false, user, now, rid);
    RemoveQuiet(Invoke(c, i, rsp, false, user, now).0, i, rid);
  }

  /** In every run in which what reaches an observation are notifications of one server, dropped, delayed below 128 s,
      duplicated and reordered at will, answers without an Observe option, or error replies: its callback is handed exactly
      those answers and the notifications newer than all before, in the order in which they came. */
  lemma ObserveFreshnessOverRuns(events: seq<Event>, user: User, rid: nat, meaning: nat -> Arrival)
    requires OnlyWhole(events, user, rid, meaning) && NoGetNext(events, rid)
    requires Arrive(Notes(Arrivals(events, user, rid, meaning)))
    ensures var arrivals := Arrivals(events, user, rid, meaning);
      && Handed(Run(events, user).calls, rid) == Payloads(Kept(arrivals))
      && Notes(Kept(arrivals)) == Fresh(Notes(arrivals)) && StrictlyIncreasing(Fresh(Notes(arrivals)))
  {
    var arrivals := Arrivals(events, user, rid, meaning);
    ObserveOverRuns(events, user, rid, meaning);
    PassedIsKept(arrivals);
    NotesOfKept(arrivals);
    FreshFacts(Notes(arrivals));
  }

  // ----- The life of an observation

  /** The step from `c` to `c1` made the terminal callback of `rid`, with an error. */
  ghost predicate EndsInError(c: Client, c1: Client, rid: nat, k: nat)
  {
    |c.calls| <= k < |c1.calls| && CompletesAt(c1.calls, rid, k) && c1.calls[k].rsp.err != 0
  }

  /** Step `n` ended the observation `rid`: it disconnected, or brought an error reply or one with Block2. */
  ghost predicate EndedAt(events: seq<Event>, user: User, rid: nat, n: nat)
    requires n < |events|
  {
    var c, c1, e := Run(events[..n], user), Run(events[..n + 1], user), events[n];
    && Lookup(c.reqs, rid).Some? && Lookup(c1.reqs, rid) == None
    && (exists k: nat :: EndsInError(c, c1, rid, k))
    && (e.step.DisconnectStep? || (Reaches(c, e, rid) && (CodeToPosix(e.step.rx.code) != 0 || e.step.rx.block2.Some?)))
  }

  ghost predicate NotSent(c: Client, c1: Client, rid: nat)
  {
    c.sends <= c1.sends && forall k :: |c.sends| <= k < |c1.sends| ==> c1.sends[k].rid != rid
  }

  /** Nothing was sent for the answered observation `rid` between `n` and `m`, and it is still answered at `m` or was ended. */
  ghost predicate StaysAnswered(events: seq<Event>, user: User, rid: nat, n: nat, m: nat)
    requires n <= m <= |events|
  {
    var c, c1 := Run(events[..n], user), Run(events[..m], user);
    && NotSent(c, c1, rid) && rid < c1.allocs
    && match Lookup(c1.reqs, rid)
       case Some(r) => Settled(r)
       case None => exists j :: n <= j < m && EndedAt(events, user, rid, j)
  }

  /** In every run, from any point at which an observation has been answered to any later one: nothing was sent for it, and it
      is still there and answered, or a disconnect, an error reply or a block-wise one ended it, with one error callback. */
  lemma {:induction false} AnsweredObservationStays(events: seq<Event>, user: User, rid: nat, n: nat, m: nat)
    requires n <= m <= |events|
    requires var c := Run(events[..n], user); Lookup(c.reqs, rid).Some? && Settled(Lookup(c.reqs, rid).value)
    ensures StaysAnswered(events, user, rid, n, m)
    decreases m
  {
    hide Apply, EndedAt;
    if n == m {
      RunInv(events[..n], user);
      ListedKnown(Run(events[..n], user), rid);
    } else {
      AnsweredObservationStays(events, user, rid, n, m - 1);
      if Lookup(Run(events[..m - 1], user).reqs, rid).Some? {
        StillAnswered(events, user, rid, n, m);
      } else {
        LongGone(events, user, rid, n, m);
      }
    }
  }

  lemma StillAnswered(events: seq<Event>, user: User, rid: nat, n: nat, m: nat)
    requires n < m <= |events| && StaysAnswered(events, user, rid, n, m - 1)
    requires Lookup(Run(events[..m - 1], user).reqs, rid).Some?
    ensures StaysAnswered(events, user, rid, n, m)
  {
    hide Apply, Settled, EndedAt, NotSent, Lookup, Inv;
    var c, c0, c1 := Run(events[..n], user), Run(events[..m - 1], user), Run(events[..m], user);
    RunInv(events[..m - 1], user);
    LastStep(events, user, m);
    AnsweredStep(c0, events[m - 1], user, rid);
    SentNothing(c, c0, c1, rid);
    if Lookup(c1.reqs, rid) == None {
      EndedHere(events, user, rid, m - 1);
    }
  }

  lemma LongGone(events: seq<Event>, user: User, rid: nat, n: nat, m: nat)
    requires n < m <= |events| && StaysAnswered(events, user, rid, n, m - 1)
    requires Lookup(Run(events[..m - 1], user).reqs, rid) == None
    ensures StaysAnswered(events, user, rid, n, m)
  {
    hide Apply, Settled, EndedAt, NotSent, Lookup, Inv;
    var c, c0, c1 := Run(events[..n], user), Run(events[..m - 1], user), Run(events[..m], user);
    RunInv(events[..m - 1], user);
    LastStep(events, user, m);
    GoneStaysGone(c0, events[m - 1], user, rid);
    SentNothing(c, c0, c1, rid);
    var j :| n <= j < m - 1 && EndedAt(events, user, rid, j);
  }

  lemma LastStep(events: seq<Event>, user: User, m: nat)
    requires 0 < m <= |events|
    ensures Run(events[..m], user) == Apply(Run(events[..m - 1], user), events[m - 1], user)
  {
    hide Apply;
    assert events[..m][..m - 1] == events[..m - 1];
  }

  lemma ListedKnown(c: Client, rid: nat)
    requires Inv(c) && Lookup(c.reqs, rid).Some?
    ensures rid < c.allocs
  {
    OwnedMeans(c);
  }

  lemma SentNothing(c: Client, c0: Client, c1: Client, rid: nat)
    requires NotSent(c, c0, rid) && NotSent(c0, c1, rid)
    ensures NotSent(c, c1, rid)
  {
    forall k | |c.sends| <= k < |c1.sends|
      ensures c1.sends[k].rid != rid
    {
      if k < |c0.sends| { assert c1.sends[k] == c0.sends[k]; }
    }
  }

  /** One step of an answered observation. */
  lemma AnsweredStep(c: Client, e: Event, user: User, rid: nat)
    requires Inv(c) && Lookup(c.reqs, rid).Some? && Settled(Lookup(c.reqs, rid).value)
    ensures var c1 := Apply(c, e, user);
      && NotSent(c, c1, rid) && rid < c1.allocs
      && (Lookup(c1.reqs, rid).Some? ==> Settled(Lookup(c1.reqs, rid).value))
      && (Lookup(c1.reqs, rid) == None ==>
            && (exists k: nat :: EndsInError(c, c1, rid, k))
            && (e.step.DisconnectStep? || (Reaches(c, e, rid) && (CodeToPosix(e.step.rx.code) != 0 || e.step.rx.block2.Some?))))
      && (!Reaches(c, e, rid) && !e.step.DisconnectStep? ==> Lookup(c1.reqs, rid) == Lookup(c.reqs, rid))
  {
    hide Apply, PollPass, ProcessRx, CancelAll, HandleReply, CallsKnown, ListedOpen, FreedDone, Below;
    var c1 := Apply(c, e, user);
    var i := IndexOf(c.reqs, rid);
    OwnedMeans(c);
    ApplyInv(c, e, user);
    if Reaches(c, e, rid) {
      ReachedStep(c, e, user, rid, i);
    } else {
      OtherStepQuiet(c, e, user, rid);
      if !e.step.DisconnectStep? { SettledKept(c, i, e, user, rid); }
    }
    if Lookup(c1.reqs, rid) == None { GoneIsCompleted(c, c1, i, e, user, rid); }
  }

  lemma EndedHere(events: seq<Event>, user: User, rid: nat, n: nat)
    requires n < |events|
    requires var c, c1, e := Run(events[..n], user), Run(events[..n + 1], user), events[n];
      && Lookup(c.reqs, rid).Some? && Lookup(c1.reqs, rid) == None
      && (exists k: nat :: EndsInError(c, c1, rid, k))
      && (e.step.DisconnectStep? || (Reaches(c, e, rid) && (CodeToPosix(e.step.rx.code) != 0 || e.step.rx.block2.Some?)))
    ensures EndedAt(events, user, rid, n)
  {
  }

  /** A request that left the list never comes back. */
  lemma GoneStaysGone(c: Client, e: Event, user: User, rid: nat)
    requires Inv(c) && Lookup(c.reqs, rid) == None && rid < c.allocs
    ensures var c1 := Apply(c, e, user); NotSent(c, c1, rid) && Lookup(c1.reqs, rid) == None && rid < c1.allocs
  {
    hide Apply, Inv;
    assert !Reaches(c, e, rid) by { Unreached(c, e, rid); }
    OtherStepQuiet(c, e, user, rid);
  }

  lemma Unreached(c: Client, e: Event, rid: nat)
    requires Lookup(c.reqs, rid) == None
    ensures !Reaches(c, e, rid)
  {
  }

  lemma ReachedStep(c: Client, e: Event, user: User, rid: nat, i: nat)
    requires Inv(c) && Reaches(c, e, rid) && i < |c.reqs| && c.reqs[i].rid == rid && Settled(c.reqs[i])
    ensures var c1 := Apply(c, e, user);
      && c1.sends == c.sends && c.allocs <= c1.allocs
      && (Lookup(c1.reqs, rid).Some? ==> Settled(Lookup(c1.reqs, rid).value))
      && (Lookup(c1.reqs, rid) == None ==> CodeToPosix(e.step.rx.code) != 0 || e.step.rx.block2.Some?)
  {
    hide HandleReply, CallsKnown, ListedOpen, FreedDone, Below;
    var rx := e.step.rx;
    OwnedMeans(c);
    assert FindMatch(c.reqs, rx) == i;
    LookupMember(c, i);
    if rx.observe.None? {
      ReplyToSettled(c, i, rx, user, e.now, rid);
    } else if ReplyIsNewer(c.reqs[i].reply, rx.observe.value, e.now) {
      var r := c.reqs[i].(reply := Reply(rx.observe.value, e.now));
      WithReqInv(c, i, r, {});
      ReplyToSettled(WithReq(c, i, r), i, rx, user, e.now, rid);
    }
  }

  lemma ReplyToSettled(c: Client, i: nat, rx: Packet, user: User, now: int, rid: nat)
    requires Inv(c) && i < |c.reqs| && c.reqs[i].rid == rid && Settled(c.reqs[i])
    ensures var c1 := HandleReply(c, i, rx, user, now);
      && c1.sends == c.sends && c.allocs <= c1.allocs
      && (Lookup(c1.reqs, rid).Some? ==> Settled(Lookup(c1.reqs, rid).value))
      && (Lookup(c1.reqs, rid) == None ==> CodeToPosix(rx.code) != 0 || rx.block2.Some?)
  {
    hide Finish, Complete, Continue, CallsKnown, ListedOpen, FreedDone, Below;
    var r := c.reqs[i];
    if CodeToPosix(rx.code) != 0 {
      ExitsOfSettled(c, i, ErrorRsp(CodeToPosix(rx.code)), user, now, rid);
    } else if rx.block2.None? {
      ExitsOfSettled(c, i, Rsp(rx.payload, 0, |rx.payload|, false, 0), user, now, rid);
    } else {
      var option := rx.block2.value;
      match UpdateFromBlock(r.block, option, rx.size2)
      case None => ExitsOfSettled(c, i, ErrorRsp(-EBADMSG), user, now, rid);
      case Some(ctx) =>
        if ctx.current < r.block.current {
          var r1 := r.(block := ctx.(current := r.block.current));
          WithReqOwned(c, i, r1);
          LookupMember(WithReq(c, i, r1), i);
        } else {
          var (after, off) := NextOffset(ctx, option, |rx.payload|);
          var r1 := r.(block := after);
          WithReqInv(c, i, r1, {});
          ExitsOfSettled(WithReq(c, i, r1), i, Rsp(rx.payload, ctx.current, after.total, off != 0,
                         if off != 0 && r.observe then -EMSGSIZE else 0), user, now, rid);
        }
    }
  }

  /** What the three exits of the reply handler make of an answered observation. */
  lemma ExitsOfSettled(c: Client, i: nat, rsp: Rsp, user: User, now: int, rid: nat)
    requires Inv(c) && i < |c.reqs| && c.reqs[i].rid == rid && Settled(c.reqs[i])
    ensures Finish(c, i, rsp, user, now).sends == c.sends && c.allocs <= Finish(c, i, rsp, user, now).allocs
    ensures Complete(c, i, rsp, user, now).sends == c.sends && c.allocs <= Complete(c, i, rsp, user, now).allocs
    ensures Continue(c, i, rsp, user, now).sends == c.sends && c.allocs <= Continue(c, i, rsp, user, now).allocs
    ensures Lookup(Finish(c, i, rsp, user, now).reqs, rid) == None
    ensures Lookup(Continue(c, i, rsp, user, now).reqs, rid) == None
    ensures var l := Lookup(Complete(c, i, rsp, user, now).reqs, rid); l.Some? && Settled(l.value)
  {
    hide Invoke, CallsKnown, ListedOpen, FreedDone, Below;
    InvokeKeeps(c, i, rsp, false, user, now);
    InvokeQuiet(c, i, rsp, false, user, now, rid + 1);
    var c0 := Invoke(c, i, rsp, false, user, now).0;
    RemoveQuiet(c0, i, rid);
    var r1 := c0.reqs[i].(isPending := false);
    WithReqOwned(c0, i, r1);
    LookupMember(WithReq(c0, i, r1), i);
  }

  lemma GoneIsCompleted(c: Client, c1: Client, i: nat, e: Event, user: User, rid: nat)
    requires Inv(c) && Inv(c1) && c1 == Apply(c, e, user) && i < |c.reqs| && c.reqs[i].rid == rid && c.reqs[i].observe
    requires Lookup(c1.reqs, rid) == None
    ensures exists k: nat :: EndsInError(c, c1, rid, k)
  {
    ApplyGrows(c, e, user);
    NotListed(c1, rid);
    TrackMeans(c.calls, rid);
    TrackMeans(c1.calls, rid);
    assert forall k :: 0 <= k < |c.calls| ==> c1.calls[k] == c.calls[k];
    var k: nat :| CompletesAt(c1.calls, rid, k);
    assert c1.calls[k].observe == c1.accepted[rid];
    assert EndsInError(c, c1, rid, k);
  }

  lemma NotListed(c: Client, rid: nat)
    requires Inv(c) && Lookup(c.reqs, rid) == None && rid in c.accepted
    ensures Track(c.calls, rid) == Done
  {
    OwnedMeans(c);
    assert forall j :: 0 <= j < |c.reqs| ==> Rids(c.reqs)[j] != rid;
  }

  /** Handling a packet for another request keeps this one in the list as it is. */
  lemma OthersKept(c: Client, j: nat, rx: Packet, user: User, now: int, i: nat)
    requires i < |c.reqs| && j < |c.reqs| && i != j
    ensures c.reqs[i] in HandleReply(c, j, rx, user, now).reqs
  {
    var r := c.reqs[j];
    if CodeToPosix(rx.code) != 0 {
      CallbackKeepsOthers(c, j, ErrorRsp(CodeToPosix(rx.code)), user, now, i);
    } else if rx.block2.None? {
      CallbackKeepsOthers(c, j, Rsp(rx.payload, 0, |rx.payload|, false, 0), user, now, i);
    } else {
      var option := rx.block2.value;
      match UpdateFromBlock(r.block, option, rx.size2)
      case None => CallbackKeepsOthers(c, j, ErrorRsp(-EBADMSG), user, now, i);
      case Some(ctx) =>
        if ctx.current < r.block.current {
          assert WithReq(c, j, r.(block := ctx.(current := r.block.current))).reqs[i] == c.reqs[i];
        } else {
          var (after, off) := NextOffset(ctx, option, |rx.payload|);
          var c1 := WithReq(c, j, r.(block := after));
          CallbackKeepsOthers(c1, j, Rsp(rx.payload, ctx.current, after.total, off != 0,
                                         if off != 0 && r.observe then -EMSGSIZE else 0), user, now, i);
        }
    }
  }

  lemma CallbackKeepsOthers(c: Client, j: nat, rsp: Rsp, user: User, now: int, i: nat)
    requires i < |c.reqs| && j < |c.reqs| && i != j
    ensures c.reqs[i] in Finish(c, j, rsp, user, now).reqs
    ensures c.reqs[i] in Complete(c, j, rsp, user, now).reqs
    ensures c.reqs[i] in Continue(c, j, rsp, user, now).reqs
  {
    InvokeKeeps(c, j, rsp, false, user, now);
    var c1 := Invoke(c, j, rsp, false, user, now).0;
    assert c1.reqs[i] == WithReq(c, j, c1.reqs[j]).reqs[i] == c.reqs[i];
    assert Remove(c1, j).reqs[if i < j then i else i - 1] == c.reqs[i];
    assert WithReq(c1, j, c1.reqs[j].(isPending := false)).reqs[i] == c.reqs[i];
  }

  lemma {:induction false} SettledSurvives(reqs: seq<Req>, now: int, i: nat)
    requires i < |reqs| && Settled(reqs[i])
    ensures reqs[i] in Survivors(reqs, now)
  {
    if i > 0 { SettledSurvives(reqs[1..], now, i - 1); }
  }

  lemma SettledKept(c: Client, i: nat, e: Event, user: User, rid: nat)
    requires Inv(c) && Inv(Apply(c, e, user)) && i < |c.reqs| && c.reqs[i].rid == rid && Settled(c.reqs[i])
    requires !Reaches(c, e, rid) && !e.step.DisconnectStep?
    ensures Lookup(Apply(c, e, user).reqs, rid) == Some(c.reqs[i])
  {
    hide PollPass, ProcessRx, CancelAll, CallsKnown, ListedOpen, FreedDone, Below;
    var c1 := Apply(c, e, user);
    match e.step {
      case SubmitStep(d) => assert c1.reqs[i] == c.reqs[i];
      case PollStep => SettledPolled(c, user, e.now, i);
      case RxStep(rx) => SettledRx(c, rx, user, e.now, i, rid);
      case NextStep(r, next) =>
        var j := IndexOf(c.reqs, r);
        if j < |c.reqs| && j != i { assert c1.reqs[i] == c.reqs[i]; }
      case ConnectStep =>
    }
    assert c.reqs[i] in c1.reqs;
    var m :| 0 <= m < |c1.reqs| && c1.reqs[m] == c.reqs[i];
    LookupMember(c1, m);
  }

  lemma SettledPolled(c: Client, user: User, now: int, i: nat)
    requires i < |c.reqs| && Settled(c.reqs[i])
    ensures c.reqs[i] in PollPass(c, 0, user, now).0.reqs
  {
    SettledSurvives(c.reqs, now, i);
    NoMissedDeadline(c, user, now);
    var kept := Survivors(c.reqs, now);
    var m :| 0 <= m < |kept| && kept[m] == c.reqs[i];
    var c1 := PollPass(c, 0, user, now).0;
    assert c1.reqs[m] == c1.reqs[..|kept|][m];
  }

  lemma SettledRx(c: Client, rx: Packet, user: User, now: int, i: nat, rid: nat)
    requires i < |c.reqs| && c.reqs[i].rid == rid && !Reaches(c, Event(now, RxStep(rx)), rid)
    ensures c.reqs[i] in ProcessRx(c, rx, user, now).reqs
  {
    var j := FindMatch(c.reqs, rx);
    if j < |c.reqs| {
      OthersKept(c, j, rx, user, now, i);
      if rx.observe.Some? {
        OthersKept(WithReq(c, j, c.reqs[j].(reply := Reply(rx.observe.value, now))), j, rx, user, now, i);
      }
    }
  }
}
