/** The failover broadcaster (modules/nostr_alerter.py:69-122): relays are
    tried one at a time in priority order until one confirms the event. */
module Failover {

  import opened Ack
  import opened Relay

  type Url = string

  /** How the relay at each address behaves during this run. */
  type Network = Url -> Attempt

  datatype Result = Delivered(relay: nat) | Exhausted

  /** The overall result and every connection event, in order. */
  datatype Run = Run(result: Result, trace: seq<ConnEvent>)

  /** Relay `k` is the first of the list whose attempt confirms. */
  predicate FirstConfirming(urls: seq<Url>, net: Network, id: EventId, k: nat) {
    && k < |urls|
    && Confirms(net(urls[k]), id)
    && forall j :: 0 <= j < k ==> !Confirms(net(urls[j]), id)
  }

  /** The relay loop started at position `i`. */
  function From(urls: seq<Url>, net: Network, id: EventId, i: nat): (r: Run)
    requires i <= |urls|
    ensures r.result.Delivered? ==> i <= r.result.relay < |urls| && Confirms(net(urls[r.result.relay]), id)
    ensures r.result.Delivered? ==> forall j :: i <= j < r.result.relay ==> !Confirms(net(urls[j]), id)
    ensures r.result.Exhausted? <==> forall j :: i <= j < |urls| ==> !Confirms(net(urls[j]), id)
    decreases |urls| - i
  {
    if i == |urls| then Run(Exhausted, [])
    else
      var a := RunAttempt(i, net(urls[i]), id);
      if a.outcome == Accepted then Run(Delivered(i), a.trace)
      else
        var rest := From(urls, net, id, i + 1);
        Run(rest.result, a.trace + rest.trace)
  }

  /** The whole loop: the first confirming relay wins, and the run is
      exhausted exactly when no relay confirms. */
  function Broadcast(urls: seq<Url>, net: Network, id: EventId): (r: Run)
    ensures forall k :: 0 <= k < |urls| ==> (r.result == Delivered(k) <==> FirstConfirming(urls, net, id, k))
    ensures r.result.Exhausted? <==> forall j :: 0 <= j < |urls| ==> !Confirms(net(urls[j]), id)
  {
    From(urls, net, id, 0)
  }

  /** How many relays of the list a run reached. */
  function Reach(r: Result, n: nat): nat {
    match r
    case Delivered(k) => k + 1
    case Exhausted => n
  }

  function Range(a: nat, b: nat): (s: seq<nat>)
    requires a <= b
    ensures |s| == b - a
    ensures forall k :: 0 <= k < |s| ==> s[k] == a + k
  {
    seq(b - a, k => a + k)
  }

  lemma RangeCons(a: nat, b: nat)
    requires a < b
    ensures Range(a, b) == [a] + Range(a + 1, b)
  {
  }

  /** The connection slot ends every run free: each attempt closes its
      connection before the next relay is opened, and the run ends with
      nothing open, on every path. */
  lemma {:induction false} ClosedOnEveryPath(urls: seq<Url>, net: Network, id: EventId, i: nat, c: Conn)
    requires i <= |urls|
    requires !c.Connected?
    ensures Replay(c, From(urls, net, id, i).trace).Some?
    ensures !Replay(c, From(urls, net, id, i).trace).value.Connected?
    decreases |urls| - i
  {
    if i < |urls| {
      var a := RunAttempt(i, net(urls[i]), id);
      AttemptDiscipline(i, net(urls[i]), id, c);
      if a.outcome != Accepted {
        var rest := From(urls, net, id, i + 1);
        ReplayAppend(c, a.trace, rest.trace);
        ClosedOnEveryPath(urls, net, id, i + 1, Closed(i));
      }
    }
  }

  /** Relays are opened strictly in list order, each at most once, from
      position `i` up to the winner, or up to the end of the list when none
      confirms; no relay after the winner is opened. */
  lemma {:induction false} OpensInOrder(urls: seq<Url>, net: Network, id: EventId, i: nat)
    requires i <= |urls|
    ensures i <= Reach(From(urls, net, id, i).result, |urls|) <= |urls|
    ensures Opened(From(urls, net, id, i).trace) == Range(i, Reach(From(urls, net, id, i).result, |urls|))
    decreases |urls| - i
  {
    var r := From(urls, net, id, i);
    if i < |urls| {
      var a := RunAttempt(i, net(urls[i]), id);
      AttemptOpensOnce(i, net(urls[i]), id);
      if a.outcome != Accepted {
        var rest := From(urls, net, id, i + 1);
        OpensInOrder(urls, net, id, i + 1);
        OpenedAppend(a.trace, rest.trace);
        assert Reach(r.result, |urls|) == Reach(rest.result, |urls|);
        RangeCons(i, Reach(rest.result, |urls|));
      } else {
        RangeCons(i, i + 1);
      }
    }
  }

  /** Every event of `t` concerns a relay in `[lo, hi)`. */
  predicate Within(t: seq<ConnEvent>, lo: nat, hi: nat) {
    forall m :: 0 <= m < |t| ==> lo <= t[m].relay < hi
  }

  /** The events of `t` are grouped by relay in list order. */
  predicate Grouped(t: seq<ConnEvent>) {
    forall m, n :: 0 <= m <= n < |t| ==> t[m].relay <= t[n].relay
  }

  lemma GroupedAppend(a: seq<ConnEvent>, b: seq<ConnEvent>, i: nat, hi: nat)
    requires i < hi
    requires Within(a, i, i + 1)
    requires Within(b, i + 1, hi) && Grouped(b)
    ensures Within(a + b, i, hi) && Grouped(a + b)
  {
    var t := a + b;
    forall m, n | 0 <= m <= n < |t|
      ensures t[m].relay <= t[n].relay
    {
      if n >= |a| {
        assert t[n] == b[n - |a|];
        if m >= |a| {
          assert t[m] == b[m - |a|];
        }
      }
    }
    forall m | 0 <= m < |t|
      ensures i <= t[m].relay < hi
    {
      if m >= |a| {
        assert t[m] == b[m - |a|];
      }
    }
  }

  /** Every event of the run concerns a relay the run reached, and the events
      are grouped by relay in list order: nothing of relay `j` happens after
      anything of a later relay. */
  lemma {:induction false} TraceInOrder(urls: seq<Url>, net: Network, id: EventId, i: nat)
    requires i <= |urls|
    ensures Within(From(urls, net, id, i).trace, i, Reach(From(urls, net, id, i).result, |urls|))
    ensures Grouped(From(urls, net, id, i).trace)
    decreases |urls| - i
  {
    var r := From(urls, net, id, i);
    if i < |urls| {
      var a := RunAttempt(i, net(urls[i]), id);
      AttemptOpensOnce(i, net(urls[i]), id);
      assert Within(a.trace, i, i + 1) by {
        forall m | 0 <= m < |a.trace|
          ensures i <= a.trace[m].relay < i + 1
        {
          assert a.trace[m] in a.trace;
        }
      }
      if a.outcome != Accepted {
        var rest := From(urls, net, id, i + 1);
        TraceInOrder(urls, net, id, i + 1);
        OpensInOrder(urls, net, id, i + 1);
        GroupedAppend(a.trace, rest.trace, i, Reach(rest.result, |urls|));
      } else {
        assert Grouped(a.trace);
      }
    }
  }

  /** A relay that was opened and did not confirm never ends the run while
      relays remain: the next relay is opened too. */
  lemma FailureAdvances(urls: seq<Url>, net: Network, id: EventId, j: nat)
    requires j + 1 < |urls|
    requires j in Opened(Broadcast(urls, net, id).trace)
    requires !Confirms(net(urls[j]), id)
    ensures j + 1 in Opened(Broadcast(urls, net, id).trace)
  {
    var r := Broadcast(urls, net, id);
    OpensInOrder(urls, net, id, 0);
    var s := Range(0, Reach(r.result, |urls|));
    var m :| 0 <= m < |s| && s[m] == j;
    assert s[j] == j;
    if r.result.Delivered? {
      assert r.result.relay != j;
    }
    assert s[j + 1] == j + 1;
  }

  /** The run ends in failure only after every relay of the list has been
      opened, each exactly once, in order. */
  lemma ExhaustedTriesAll(urls: seq<Url>, net: Network, id: EventId)
    requires Broadcast(urls, net, id).result.Exhausted?
    ensures Opened(Broadcast(urls, net, id).trace) == Range(0, |urls|)
  {
    OpensInOrder(urls, net, id, 0);
  }

  /** When every relay but the last fails to connect and the last confirms,
      all are opened in order and the success is the last relay's. */
  lemma LastRelayRescues(urls: seq<Url>, net: Network, id: EventId)
    requires |urls| > 0
    requires forall j :: 0 <= j < |urls| - 1 ==> !net(urls[j]).live
    requires Confirms(net(urls[|urls| - 1]), id)
    ensures Broadcast(urls, net, id).result == Delivered(|urls| - 1)
    ensures Opened(Broadcast(urls, net, id).trace) == Range(0, |urls|)
  {
    assert FirstConfirming(urls, net, id, |urls| - 1);
    OpensInOrder(urls, net, id, 0);
  }
}
