/** One attempt against one relay (modules/nostr_alerter.py:70-118): connect,
    check liveness, publish, wait for the acknowledgment, close. The network
    is reduced to the evidence the attempt observes. */
module Relay {

  import opened Wrappers
  import opened Json
  import opened Ack

  /** What the network does during one attempt: whether the socket was
      connected after the settle delay, whether `publish` returned normally,
      and the polls the wait loop made before its window closed. */
  datatype Attempt = Attempt(live: bool, publishes: bool, polls: seq<Poll>)

  /** Connection lifecycle events, tagged with the relay's position in the
      priority list. */
  datatype ConnEvent = Open(relay: nat) | Publish(relay: nat) | Close(relay: nat)

  datatype Outcome = NotLive | PublishFailed | Accepted | Refused | TimedOut

  /** The end of a wait loop: a decisive frame at position `at`, or the
      window ran out. */
  datatype Wait = Decided(at: nat, verdict: Verdict) | Expired

  /** The poll at `k` is the first one that decides anything. */
  predicate DecidesAt(polls: seq<Poll>, id: EventId, k: nat) {
    && k < |polls|
    && Classify(polls[k], id) != Irrelevant
    && forall j :: 0 <= j < k ==> Classify(polls[j], id) == Irrelevant
  }

  /** No poll of the window decides anything. */
  predicate Silent(polls: seq<Poll>, id: EventId) {
    forall j :: 0 <= j < |polls| ==> Classify(polls[j], id) == Irrelevant
  }

  /** The attempt publishes and its first decisive frame accepts. */
  predicate Confirms(a: Attempt, id: EventId) {
    a.live && a.publishes &&
    exists k :: 0 <= k < |a.polls| && DecidesAt(a.polls, id, k) && Classify(a.polls[k], id) == Confirmed
  }

  /** The attempt publishes and its first decisive frame rejects. */
  predicate Refuses(a: Attempt, id: EventId) {
    a.live && a.publishes &&
    exists k :: 0 <= k < |a.polls| && DecidesAt(a.polls, id, k) && Classify(a.polls[k], id) == Rejected
  }

  lemma DecidesAtUnique(polls: seq<Poll>, id: EventId, k: nat, k': nat)
    requires DecidesAt(polls, id, k) && DecidesAt(polls, id, k')
    ensures k == k'
  {
  }

  /** The wait loop of modules/nostr_alerter.py:91-116: frames are examined
      in arrival order and the first one that is not irrelevant ends it. */
  function AwaitAck(polls: seq<Poll>, id: EventId): (w: Wait)
    ensures w.Decided? ==> DecidesAt(polls, id, w.at) && Classify(polls[w.at], id) == w.verdict
    ensures w.Expired? <==> Silent(polls, id)
    decreases |polls|
  {
    if |polls| == 0 then Expired
    else
      var v := Classify(polls[0], id);
      if v != Irrelevant then Decided(0, v)
      else
        match AwaitAck(polls[1..], id)
        case Decided(k, v') => Decided(k + 1, v')
        case Expired => Expired
  }

  datatype Report = Report(outcome: Outcome, trace: seq<ConnEvent>)

  /** The events of an attempt against relay `i` once its outcome is known.
      A rejection breaks out of the wait loop after closing and then reaches
      the close after the loop, so it closes twice. */
  function AttemptTrace(i: nat, a: Attempt, o: Outcome): seq<ConnEvent> {
    (if a.live then [Open(i), Publish(i)] else [Open(i)]) +
    (if o == Refused then [Close(i), Close(i)] else [Close(i)])
  }

  /** One iteration of the relay loop (modules/nostr_alerter.py:70-118). */
  function RunAttempt(i: nat, a: Attempt, id: EventId): (r: Report)
    ensures r.outcome == Accepted <==> Confirms(a, id)
    ensures r.outcome == Refused <==> Refuses(a, id)
    ensures r.outcome == TimedOut <==> a.live && a.publishes && Silent(a.polls, id)
    ensures r.outcome == PublishFailed <==> a.live && !a.publishes
    ensures r.outcome == NotLive <==> !a.live
    ensures r.trace == AttemptTrace(i, a, r.outcome)
  {
    if !a.live then Report(NotLive, AttemptTrace(i, a, NotLive))
    else if !a.publishes then Report(PublishFailed, AttemptTrace(i, a, PublishFailed))
    else
      var w := AwaitAck(a.polls, id);
      var o := match w
        case Decided(k, v) => if v == Confirmed then Accepted else Refused
        case Expired => TimedOut;
      assert o == Accepted ==> Confirms(a, id);
      assert o == Refused ==> Refuses(a, id);
      assert Confirms(a, id) ==> o == Accepted by {
        if Confirms(a, id) {
          var k :| 0 <= k < |a.polls| && DecidesAt(a.polls, id, k) && Classify(a.polls[k], id) == Confirmed;
          DecidesAtUnique(a.polls, id, k, w.at);
        }
      }
      assert Refuses(a, id) ==> o == Refused by {
        if Refuses(a, id) {
          var k :| 0 <= k < |a.polls| && DecidesAt(a.polls, id, k) && Classify(a.polls[k], id) == Rejected;
          DecidesAtUnique(a.polls, id, k, w.at);
        }
      }
      Report(o, AttemptTrace(i, a, o))
  }

  /** The state of the single connection slot. `Closed(j)` remembers the
      last relay closed, so that closing it again is harmless. */
  datatype Conn = Fresh | Connected(relay: nat) | Closed(relay: nat)

  /** One event's effect on the slot: `None` when it breaks the discipline
      (a second connection opened, a publish or close on another relay). */
  function Step(c: Conn, e: ConnEvent): Option<Conn> {
    match e
    case Open(j) => if c.Connected? then None else Some(Connected(j))
    case Publish(j) => if c == Connected(j) then Some(c) else None
    case Close(j) => if c == Connected(j) || c == Closed(j) then Some(Closed(j)) else None
  }

  function Replay(c: Conn, t: seq<ConnEvent>): Option<Conn>
    decreases |t|
  {
    if |t| == 0 then Some(c)
    else
      match Step(c, t[0])
      case None => None
      case Some(c') => Replay(c', t[1..])
  }

  lemma {:induction false} ReplayAppend(c: Conn, a: seq<ConnEvent>, b: seq<ConnEvent>)
    ensures Replay(c, a + b) ==
      match Replay(c, a)
      case None => None
      case Some(c') => Replay(c', b)
    decreases |a|
  {
    if |a| == 0 {
      assert a + b == b;
    } else {
      assert (a + b)[0] == a[0];
      assert (a + b)[1..] == a[1..] + b;
      match Step(c, a[0])
      case None =>
      case Some(c') => ReplayAppend(c', a[1..], b);
    }
  }

  /** Every attempt, whatever its outcome, starts from an idle slot and
      leaves the slot closed on its own relay. */
  lemma AttemptDiscipline(i: nat, a: Attempt, id: EventId, c: Conn)
    requires !c.Connected?
    ensures Replay(c, RunAttempt(i, a, id).trace) == Some(Closed(i))
  {
    var r := RunAttempt(i, a, id);
    var t := r.trace;
    assert Replay(c, t) == Replay(Connected(i), t[1..]);
    var u := t[1..];
    if a.live {
      assert Replay(Connected(i), u) == Replay(Connected(i), u[1..]);
      var v := u[1..];
      assert Replay(Connected(i), v) == Replay(Closed(i), v[1..]);
      if r.outcome == Refused {
        assert Replay(Closed(i), v[1..]) == Replay(Closed(i), v[1..][1..]);
        assert v[1..][1..] == [];
      } else {
        assert v[1..] == [];
      }
    } else {
      assert Replay(Connected(i), u) == Replay(Closed(i), u[1..]);
      assert u[1..] == [];
    }
  }

  /** The relay positions of the `Open` events of a trace, in order. */
  function Opened(t: seq<ConnEvent>): seq<nat>
    decreases |t|
  {
    if |t| == 0 then []
    else (if t[0].Open? then [t[0].relay] else []) + Opened(t[1..])
  }

  lemma {:induction false} OpenedAppend(a: seq<ConnEvent>, b: seq<ConnEvent>)
    ensures Opened(a + b) == Opened(a) + Opened(b)
    decreases |a|
  {
    if |a| == 0 {
      assert a + b == b;
    } else {
      assert (a + b)[0] == a[0];
      assert (a + b)[1..] == a[1..] + b;
      OpenedAppend(a[1..], b);
    }
  }

  /** An attempt opens exactly one connection, to its own relay, and every
      event it records concerns that relay. */
  lemma AttemptOpensOnce(i: nat, a: Attempt, id: EventId)
    ensures Opened(RunAttempt(i, a, id).trace) == [i]
    ensures forall e :: e in RunAttempt(i, a, id).trace ==> e.relay == i
  {
    var t := RunAttempt(i, a, id).trace;
    var pre := if a.live then [Open(i), Publish(i)] else [Open(i)];
    var post := if RunAttempt(i, a, id).outcome == Refused then [Close(i), Close(i)] else [Close(i)];
    OpenedAppend(pre, post);
    if RunAttempt(i, a, id).outcome == Refused {
      assert post[1..][1..] == [];
      assert Opened(post[1..]) == [];
    } else {
      assert post[1..] == [];
    }
    if a.live {
      assert pre[1..][1..] == [];
    }
  }
}
