/** Reordering of Observe notifications (section 3.4 of RFC 7641) as coap_req.c decides it. */
module ObserveOrder {
  import opened Common

  const NEWER_AFTER_MS: int := 128_000
  const SEQ_MOD: int := 0x100_0000
  const SEQ_HALF: int := 0x80_0000

  /** `struct golioth_coap_reply`: sequence number and uptime of the last notification let through. */
  datatype Reply = Reply(number: int, ts: int)

  const INITIAL_REPLY := Reply(0, -NEWER_AFTER_MS)

  predicate SequenceNumberIsNewer(v1: int, v2: int)
  {
    (v1 < v2 && v2 - v1 < SEQ_HALF) || (v1 > v2 && v1 - v2 > SEQ_HALF)
  }

  predicate ReplyIsNewer(reply: Reply, number: int, uptime: int)
  {
    uptime > reply.ts + NEWER_AFTER_MS || SequenceNumberIsNewer(reply.number, number)
  }

  /** A notification as the server meant it: its true counter, when it was sent, when it arrives here. */
  datatype Notification = Notification(counter: nat, sent: int, arrived: int, payload: seq<byte>)

  /** The 24 bits of the counter that the Observe option carries. */
  function WireSeq(n: Notification): int
  {
    n.counter % 0x100_0000
  }

  /** The server's side of section 4.4 of RFC 7641, and a network delay below 128 s. */
  ghost predicate ServerOrder(a: Notification, b: Notification)
  {
    && 0 <= a.arrived - a.sent < 128_000
    && (a.counter < b.counter ==> a.sent <= b.sent)
    && (a.counter == b.counter ==> a.sent == b.sent)
    && (0 <= b.sent - a.sent < 256_000 ==> b.counter < a.counter + 0x80_0000)
  }

  ghost predicate FromServer(ns: seq<Notification>)
  {
    forall i, j {:trigger ServerOrder(ns[i], ns[j])} :: 0 <= i < |ns| && 0 <= j < |ns| ==> ServerOrder(ns[i], ns[j])
  }

  ghost predicate InArrivalOrder(ns: seq<Notification>)
  {
    forall i, j {:trigger ns[i].arrived, ns[j].arrived} :: 0 <= i < j < |ns| ==> ns[i].arrived <= ns[j].arrived
  }

  function ReplyFor(n: Notification): Reply
  {
    Reply(WireSeq(n), n.arrived)
  }

  /** The client's test, on 24-bit numbers and its own clock, is exactly "the server sent it later". */
  lemma NewerIsExact(last: Notification, next: Notification)
    requires ServerOrder(last, next) && ServerOrder(next, last)
    requires last.arrived <= next.arrived
    ensures ReplyIsNewer(ReplyFor(last), WireSeq(next), next.arrived) <==> last.counter < next.counter
  {
    if next.arrived > last.arrived + NEWER_AFTER_MS {
      assert next.sent > last.sent;
    } else if last.counter < next.counter {
      assert next.sent - last.sent < 2 * NEWER_AFTER_MS;
      WireDistance(last.counter, next.counter);
    } else if next.counter < last.counter {
      assert last.sent - next.sent < 2 * NEWER_AFTER_MS;
      WireDistance(next.counter, last.counter);
    }
  }

  lemma WireDistance(a: nat, b: nat)
    requires a < b < a + SEQ_HALF
    ensures SequenceNumberIsNewer(a % SEQ_MOD, b % SEQ_MOD)
    ensures !SequenceNumberIsNewer(b % SEQ_MOD, a % SEQ_MOD)
  {
    var d := b - a;
    var q := a / SEQ_MOD;
    assert a == q * SEQ_MOD + a % SEQ_MOD;
    if a % SEQ_MOD + d < SEQ_MOD {
      assert b == q * SEQ_MOD + (a % SEQ_MOD + d);
      assert b % SEQ_MOD == a % SEQ_MOD + d;
    } else {
      assert b == (q + 1) * SEQ_MOD + (a % SEQ_MOD + d - SEQ_MOD);
      assert b % SEQ_MOD == a % SEQ_MOD + d - SEQ_MOD;
    }
  }

  // ----- Whole runs

  /** What one observation hands to its callback out of the notifications that arrive, and its reply state after. */
  function Deliver(reply: Reply, ns: seq<Notification>): (seq<Notification>, Reply)
  {
    if ns == [] then ([], reply)
    else
      var (before, r) := Deliver(reply, ns[..|ns| - 1]);
      var n := ns[|ns| - 1];
      if ReplyIsNewer(r, WireSeq(n), n.arrived) then (before + [n], ReplyFor(n)) else (before, r)
  }

  /** The reference: keep each notification whose counter is above all those before it. */
  function Fresh(ns: seq<Notification>): seq<Notification>
  {
    if ns == [] then []
    else
      var n := ns[|ns| - 1];
      if forall i :: 0 <= i < |ns| - 1 ==> ns[i].counter < n.counter then Fresh(ns[..|ns| - 1]) + [n]
      else Fresh(ns[..|ns| - 1])
  }

  ghost predicate StrictlyIncreasing(ns: seq<Notification>)
  {
    forall i, j {:trigger ns[i].counter, ns[j].counter} :: 0 <= i < j < |ns| ==> ns[i].counter < ns[j].counter
  }

  lemma {:induction false} FreshFacts(ns: seq<Notification>)
    ensures forall n :: n in Fresh(ns) ==> n in ns
    ensures StrictlyIncreasing(Fresh(ns))
    ensures ns != [] ==> Fresh(ns) != []
    ensures ns != [] ==> forall i :: 0 <= i < |ns| ==> ns[i].counter <= Fresh(ns)[|Fresh(ns)| - 1].counter
  {
    if ns != [] {
      FreshFacts(ns[..|ns| - 1]);
      forall i | 0 <= i < |ns|
        ensures ns[i].counter <= Fresh(ns)[|Fresh(ns)| - 1].counter
      {
        if i < |ns| - 1 { assert ns[i] == ns[..|ns| - 1][i]; }
      }
      forall n | n in Fresh(ns[..|ns| - 1])
        ensures n in ns && (exists i :: 0 <= i < |ns| - 1 && ns[i] == n)
      {
        assert n in ns[..|ns| - 1];
      }
      var older := Fresh(ns[..|ns| - 1]);
      forall i, j | 0 <= i < j < |Fresh(ns)|
        ensures Fresh(ns)[i].counter < Fresh(ns)[j].counter
      {
        assert older[i] in older;
      }
    }
  }

  /** The reply state that goes with the last fresh notification. */
  function FreshReply(ns: seq<Notification>): Reply
  {
    if Fresh(ns) == [] then INITIAL_REPLY else ReplyFor(Fresh(ns)[|Fresh(ns)| - 1])
  }

  ghost predicate Arrive(ns: seq<Notification>)
  {
    FromServer(ns) && InArrivalOrder(ns) && forall i :: 0 <= i < |ns| ==> ns[i].arrived > 0
  }

  /** Whatever the network drops, delays or duplicates, an observation delivers exactly the notifications that
      are newer than everything before them, so in strictly increasing true order. */
  lemma ObserveFreshness(ns: seq<Notification>)
    requires Arrive(ns)
    ensures Deliver(INITIAL_REPLY, ns) == (Fresh(ns), FreshReply(ns))
    ensures StrictlyIncreasing(Deliver(INITIAL_REPLY, ns).0)
  {
    DeliverIsFresh(ns);
    FreshFacts(ns);
  }

  lemma {:induction false} DeliverIsFresh(ns: seq<Notification>)
    requires Arrive(ns)
    ensures Deliver(INITIAL_REPLY, ns) == (Fresh(ns), FreshReply(ns))
  {
    if ns != [] {
      PrefixArrives(ns, |ns| - 1);
      DeliverIsFresh(ns[..|ns| - 1]);
      TestsAgree(ns);
    }
  }

  /** The client's test of the last arrival agrees with the reference. */
  lemma TestsAgree(ns: seq<Notification>)
    requires Arrive(ns) && ns != []
    ensures var n := ns[|ns| - 1];
      ReplyIsNewer(FreshReply(ns[..|ns| - 1]), WireSeq(n), n.arrived) <==>
      forall i :: 0 <= i < |ns| - 1 ==> ns[i].counter < n.counter
  {
    var init := ns[..|ns| - 1];
    FreshFacts(init);
    if init != [] { FreshStep(ns, init, Fresh(init)[|Fresh(init)| - 1], ns[|ns| - 1]); }
  }

  lemma PrefixArrives(ns: seq<Notification>, n: nat)
    requires Arrive(ns) && n <= |ns|
    ensures Arrive(ns[..n])
  {
    forall i, j | 0 <= i < n && 0 <= j < n
      ensures ServerOrder(ns[..n][i], ns[..n][j])
    {
      assert ServerOrder(ns[i], ns[j]);
    }
  }

  /** The last delivered notification stands for all that arrived. */
  lemma FreshStep(ns: seq<Notification>, init: seq<Notification>, last: Notification, n: Notification)
    requires Arrive(ns) && ns != [] && init == ns[..|ns| - 1] && n == ns[|ns| - 1] && last in init
    requires forall i :: 0 <= i < |init| ==> init[i].counter <= last.counter
    ensures ReplyIsNewer(ReplyFor(last), WireSeq(n), n.arrived) <==>
            forall i :: 0 <= i < |ns| - 1 ==> ns[i].counter < n.counter
  {
    var k :| 0 <= k < |init| && init[k] == last;
    assert ns[k] == last && ns[|ns| - 1] == n;
    assert ServerOrder(ns[k], ns[|ns| - 1]) && ServerOrder(ns[|ns| - 1], ns[k]);
    NewerIsExact(last, n);
    assert forall i :: 0 <= i < |init| ==> init[i] == ns[i];
  }

  /** The very first notification is let through unless it arrives at uptime 0 with a number not newer than 0. */
  lemma FirstNotification(number: int, uptime: nat)
    requires 0 <= number < 0x100_0000
    ensures ReplyIsNewer(INITIAL_REPLY, number, uptime) <==> uptime > 0 || 0 < number < 0x80_0000
  {
  }
}
