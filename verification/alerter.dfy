/** The alert orchestrator (modules/nostr_alerter.py:28-136): checks the
    command line and the two keys, shapes the message, hands it to the
    codec, runs the failover broadcaster and maps the result to an exit
    status. */
module Alerter {

  import opened Wrappers
  import opened Ack
  import opened Relay
  import opened Failover
  import opened Text
  import opened Clock

  /** The relays, highest priority first (modules/nostr_alerter.py:18-25). */
  const RelayUrls: seq<Url> := [
    "wss://relay.damus.io",
    "wss://nos.lol",
    "wss://relay.snort.social",
    "wss://relay.0xchat.com",
    "wss://auth.nostr1.com",
    "wss://relay.nostr.band"
  ]

  /** Why a run fails. */
  datatype Failure =
    | Usage              // not exactly one argument
    | MissingKeys        // a key variable unset or empty
    | EmptyMessage       // the message is only whitespace
    | KeyError           // the sender key does not parse
    | EncryptionError    // encrypting to the receiver failed
    | AllRelaysExhausted // no relay confirmed

  datatype Status = Sent(relay: nat) | Failed(reason: Failure)

  /** The key handling, encryption and signing library, seen from outside:
      whether the sender key parses, and for a plaintext the id of the
      signed event carrying it (`None` when encryption fails). */
  datatype Codec = Codec(keyValid: bool, seal: string -> Option<EventId>)

  /** A run: its status, the plaintext handed to encryption (if one was
      formed) and every relay connection event. */
  datatype Invocation = Invocation(status: Status, plaintext: Option<string>, trace: seq<ConnEvent>)

  /** Python's `not value` on an environment lookup: unset or empty. */
  predicate Unset(value: Option<string>) {
    value.None? || value.value == []
  }

  /** The run's checks on its inputs all pass: one argument after the
      program name, both keys set, a message that is not blank. */
  predicate Admitted(argv: seq<string>, sender: Option<string>, receiver: Option<string>) {
    |argv| == 2 && !Unset(sender) && !Unset(receiver) && !Blank(argv[1])
  }

  /** `sys.exit(0)` after a confirmation, `sys.exit(1)` on every failure. */
  function ExitCode(s: Status): (code: int)
    ensures code == 0 <==> s.Sent?
    ensures code == 0 || code == 1
  {
    match s
    case Sent(_) => 0
    case Failed(_) => 1
  }

  /** The relay phase of an invocation: its status and its connection
      events. */
  datatype Dispatch = Dispatch(status: Status, trace: seq<ConnEvent>)

  /** The relay loop over the configured list and its exit status
      (modules/nostr_alerter.py:69-122): sent to the first relay that
      confirms, exhausted exactly when none does, every connection closed,
      and relays opened in list order only as far as the run went. */
  function Dispatched(net: Network, id: EventId): (d: Dispatch)
    ensures d.status.Sent? || d.status == Failed(AllRelaysExhausted)
    ensures d.status.Sent? ==> d.status.relay < |RelayUrls|
    ensures forall k :: 0 <= k < |RelayUrls| ==>
      (d.status == Sent(k) <==> FirstConfirming(RelayUrls, net, id, k))
    ensures d.status == Failed(AllRelaysExhausted) <==>
      forall j :: 0 <= j < |RelayUrls| ==> !Confirms(net(RelayUrls[j]), id)
    ensures Replay(Fresh, d.trace).Some? && !Replay(Fresh, d.trace).value.Connected?
    ensures d.status.Sent? ==> Opened(d.trace) == Range(0, d.status.relay + 1)
    ensures d.status == Failed(AllRelaysExhausted) ==> Opened(d.trace) == Range(0, |RelayUrls|)
  {
    var run := Broadcast(RelayUrls, net, id);
    ClosedOnEveryPath(RelayUrls, net, id, 0, Fresh);
    OpensInOrder(RelayUrls, net, id, 0);
    match run.result
    case Delivered(k) => Dispatch(Sent(k), run.trace)
    case Exhausted => Dispatch(Failed(AllRelaysExhausted), run.trace)
  }

  /** The event id the codec gave the invocation's plaintext, if it formed
      one and encryption succeeded. */
  function SealedId(o: Invocation, codec: Codec): Option<EventId> {
    if o.plaintext.Some? then codec.seal(o.plaintext.value) else None
  }

  /** One invocation: `argv` is the whole `sys.argv`, `sender` and `receiver`
      the two key variables, `now` the time of day, `net` the behaviour of
      every relay. Each early failure happens exactly in its own case and
      touches no relay; once the event is sealed, the run is sent to the
      first confirming relay and fails exactly when none confirms. Every
      connection it opens is closed before the next is opened and before it
      ends; relays are opened in list order up to the one that confirmed,
      all of them when none did, none when a check failed. */
  function Alert(argv: seq<string>, sender: Option<string>, receiver: Option<string>,
                 now: Time, codec: Codec, net: Network): (o: Invocation)
    ensures o.status == Failed(Usage) <==> |argv| != 2
    ensures o.status == Failed(MissingKeys) <==> |argv| == 2 && (Unset(sender) || Unset(receiver))
    ensures o.status == Failed(EmptyMessage) <==>
      |argv| == 2 && !Unset(sender) && !Unset(receiver) && Blank(argv[1])
    ensures o.status == Failed(KeyError) <==> Admitted(argv, sender, receiver) && !codec.keyValid
    ensures o.plaintext.Some? <==> Admitted(argv, sender, receiver) && codec.keyValid
    ensures o.plaintext.Some? ==>
      && |o.plaintext.value| == |argv[1]| + 6
      && ParseStamp(o.plaintext.value[..5]) == Some(now)
      && o.plaintext.value[5] == ' '
      && o.plaintext.value[6..] == argv[1]
    ensures o.status == Failed(EncryptionError) <==> o.plaintext.Some? && SealedId(o, codec).None?
    ensures SealedId(o, codec).None? ==> o.trace == []
    ensures o.status.Sent? ==> SealedId(o, codec).Some? && o.status.relay < |RelayUrls|
    ensures forall k :: 0 <= k < |RelayUrls| ==>
      (o.status == Sent(k) <==>
        SealedId(o, codec).Some? && FirstConfirming(RelayUrls, net, SealedId(o, codec).value, k))
    ensures o.status == Failed(AllRelaysExhausted) <==>
      && SealedId(o, codec).Some?
      && forall j :: 0 <= j < |RelayUrls| ==> !Confirms(net(RelayUrls[j]), SealedId(o, codec).value)
    ensures Replay(Fresh, o.trace).Some? && !Replay(Fresh, o.trace).value.Connected?
    ensures o.status.Sent? ==> Opened(o.trace) == Range(0, o.status.relay + 1)
    ensures o.status == Failed(AllRelaysExhausted) ==> Opened(o.trace) == Range(0, |RelayUrls|)
  {
    if |argv| != 2 then Invocation(Failed(Usage), None, [])
    else
      var message := argv[1];
      if Unset(sender) || Unset(receiver) then Invocation(Failed(MissingKeys), None, [])
      else if Strip(message) == [] then Invocation(Failed(EmptyMessage), None, [])
      else if !codec.keyValid then Invocation(Failed(KeyError), None, [])
      else
        var text := Prefixed(now, message);
        match codec.seal(text)
        case None => Invocation(Failed(EncryptionError), Some(text), [])
        case Some(id) =>
          var d := Dispatched(net, id);
          Invocation(d.status, Some(text), d.trace)
  }
}
