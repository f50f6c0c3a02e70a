# Nostr alerter: failover broadcast with acknowledgment, in Dafny

`modules/nostr_alerter.py` sends one encrypted Nostr direct message. It tries
an ordered list of relays one at a time. For each relay it connects and checks
that the socket is live, publishes the signed event, and waits up to ten
seconds for the relay's NIP-01 `["OK", <event id>, <accepted>, <message>]`
answer. The first relay that accepts ends the run with exit status 0. If every
relay fails, the run exits with status 1. Before touching any relay, the
script checks its command line, its two key variables and the message, and
puts an `HH:MM ` prefix on the text.

This project models that decision logic as pure functions over immutable data:

- `Json`: the decoded frame (`List`, `Str`, `Bool`, `Other`). A `Poll` is what
  one turn of the wait loop obtains: nothing, undecodable bytes, or a frame.
- `Ack`: the acknowledgment matcher. It returns `Confirmed`, `Rejected` or
  `Irrelevant`.
- `Relay`: one attempt against one relay, reduced to the evidence it observes
  (`Attempt(live, publishes, polls)`). It covers the wait loop, the attempt's
  outcome and its trace of `Open`/`Publish`/`Close` events. It also has a
  state machine for the single connection slot (`Step`, `Replay`), which
  rejects a second open connection and a close of the wrong relay, and
  tolerates a repeated close.
- `Failover`: the loop over the ordered relay list. It ends in
  `Delivered(k)` or `Exhausted`, and keeps the trace of every attempt.
- `Text`: Python's `str.strip()`, using the whitespace set of
  `str.isspace()`.
- `Clock`: the `%H:%M` stamp and the prefixed plaintext.
- `Alerter`: the argument and key checks, the hand-off to the codec, the
  broadcast and the exit status.

The network is a parameter `Network = Url -> Attempt`: how the relay at each
address behaves during this run. The key, encryption and signing library is a
parameter `Codec(keyValid, seal)`. `seal` maps the plaintext to the signed
event's id, or to `None` when encryption fails. The time of day is a
parameter `now`.

The model keeps these details of the code:

- The code treats an answer to the event as a rejection whenever its third
  element is anything other than JSON `true`. That includes a string
  `"true"`, a number or `null`, not only `false`
  (`modules/nostr_alerter.py:105-111`).
- The code inspects only the first three elements of an answer. NIP-01's own
  `OK` frame has a fourth element, a message, and longer lists are accepted.
- A rejection closes the connection twice: once before `break`
  (`modules/nostr_alerter.py:110`) and once after the loop (`:118`). The
  trace records both closes.
- The command-line arity check (exactly one argument, so `len(sys.argv) == 2`)
  comes before the key and message checks.

## Model

| member | source | states |
|---|---|---|
| Ack.Classify | modules/nostr_alerter.py:97-115 | A poll confirms iff it is a decoded list that starts with `"OK"`, the event id and `true`. It rejects iff it is a list of at least three elements starting with `"OK"` and the id whose third element is not `true`. Every other poll, including undecodable input, is irrelevant. |
| Ack.NipAnswers | modules/nostr_alerter.py:99-111 | The NIP-01 answers `["OK", id, true, …]` and `["OK", id, false, …]` are a confirmation and a rejection, whatever message follows. |
| Ack.NonTrueRejects | modules/nostr_alerter.py:105-111 | An answer to the event whose third element is any value other than `true` is a rejection, not an ignored frame. |
| Ack.OthersIgnored | modules/nostr_alerter.py:96-115 | These are all ignored, whatever their third element and tail: answers to another event, frames with another tag, lists shorter than three, non-lists, undecodable input and empty reads. |
| Relay.AwaitAck | modules/nostr_alerter.py:87-116 | The wait ends at the first poll that is not irrelevant and carries that poll's verdict. It expires exactly when no poll in the window decides anything. |
| Relay.RunAttempt | modules/nostr_alerter.py:70-118 | A dead socket gives `NotLive` and a raising publish gives `PublishFailed`. Otherwise the outcome is `Accepted` or `Refused` iff the first decisive frame confirms or rejects, and `TimedOut` iff no frame decides. The trace opens the relay, publishes only if live, and closes twice only on rejection. |
| Relay.AttemptDiscipline | modules/nostr_alerter.py:72-118 | Starting from a free slot, every attempt's events are legal for the single connection slot and leave it closed on that relay, whatever the outcome. |
| Relay.AttemptOpensOnce | modules/nostr_alerter.py:70-72 | An attempt opens exactly one connection, to its own relay, and every event it records concerns that relay. |
| Failover.From | modules/nostr_alerter.py:69-122 | Starting at position `i`, the run is delivered to a relay that confirms and that no earlier relay from `i` on preceded in confirming. It is exhausted iff no relay from `i` on confirms. |
| Failover.Broadcast | modules/nostr_alerter.py:69-122 | The result is `Delivered(k)` iff `k` is the first relay of the list whose attempt confirms. It is `Exhausted` iff no relay confirms. |
| Failover.ClosedOnEveryPath | modules/nostr_alerter.py:69-118 | The whole run's trace never has two connections open and never closes the wrong relay. It ends with no connection open, on every path. |
| Failover.OpensInOrder | modules/nostr_alerter.py:69-111 | The relays opened are exactly positions `i, i+1, …` up to and including the winner, or up to the end of the list when none confirms. Each is opened once, so a rejecting relay is never retried and no relay after the winner is opened. |
| Failover.TraceInOrder | modules/nostr_alerter.py:69-118 | Every event concerns a relay the run reached, and events are grouped by relay in list order. |
| Failover.FailureAdvances | modules/nostr_alerter.py:77-118 | An opened relay that does not confirm never ends the run while relays remain: the next relay is opened. |
| Failover.ExhaustedTriesAll | modules/nostr_alerter.py:120-122 | The run ends in exhaustion only after every relay of the list has been opened, once each, in order. |
| Failover.LastRelayRescues | modules/nostr_alerter.py:69-108 | If every relay but the last fails to connect and the last confirms, all are opened in order and the delivery is the last relay's. |
| Text.TrimStart | modules/nostr_alerter.py:38 | The result is a suffix of the input. Everything dropped is whitespace, and the result does not start with whitespace. |
| Text.TrimEnd | modules/nostr_alerter.py:38 | The result is a prefix of the input. Everything dropped is whitespace, and the result does not end with whitespace. |
| Text.Strip | modules/nostr_alerter.py:38-40 | The stripped message is what remains after dropping the leading whitespace and a whitespace-only tail. It is empty iff every character is whitespace, and otherwise starts and ends with non-whitespace. |
| Clock.TwoDigits | modules/nostr_alerter.py:50 | A zero-padded two-digit field: two decimal digits whose value is the number. |
| Clock.Stamp | modules/nostr_alerter.py:50 | The `%H:%M` stamp is five characters with `:` in the middle, and it reads back as the same time. |
| Clock.ParseOnlyStamps | modules/nostr_alerter.py:50 | Any text that reads back as a time is that time's stamp, so stamp and reading are inverse. |
| Clock.Prefixed | modules/nostr_alerter.py:50-51 | The plaintext is the five-character stamp of the time, one space, then the message unchanged. |
| Alerter.ExitCode | modules/nostr_alerter.py:106-122 | The exit status is 0 iff a relay confirmed, and 1 otherwise. |
| Alerter.Dispatched | modules/nostr_alerter.py:69-122 | The run over the configured relays is `Sent(k)` iff `k` is the first relay that confirms, and it fails with exhaustion iff no relay confirms. The trace never has two connections open, and it ends with none open. Relays are opened in list order up to the winner, or all of them on exhaustion. |
| Alerter.Alert | modules/nostr_alerter.py:28-132 | Each early failure (wrong arity, missing or empty key, blank message, bad key) happens iff its own check is the first to fail, with no relay event. A plaintext is formed iff all checks pass, and it is the stamp, a space and the message. Once the event is sealed, the status is `Sent(k)` iff `k` is the first confirming relay, and exhaustion holds iff no relay confirms. Every opened connection is closed before the next is opened and before exit, and relays are opened in list order as far as the run went. |

## Left out

- WebSocket and TLS handling, `RelayManager`, `sock.recv()` and the liveness probe. These are network I/O. Each attempt is reduced to its evidence: live or not, publish raised or not, and the finite sequence of polls made before the window closed.
- The two-second settle delay, the ten-second window and the 0.2-second poll interval. There is no clock in the model, so the bound "the wait never overruns its window by more than one poll interval" is not stated.
- JSON decoding. A frame arrives already decoded, or as `Undecodable`.
- Key parsing, NIP-04 encryption, event construction and signing. These are calls into the vendored `nostr` library, and they are the `Codec` parameter. Only the key-parse and encryption failures the script catches are modelled. An exception from `Event(...)` or `sign_event` is uncaught in the script and is not modelled.
- `close_connections()` is assumed not to raise. In the script, an exception from the close on the confirmation path would be swallowed by the handler around frame decoding, and the wait loop would continue.
- Strings that contain lone surrogates (U+D800 to U+DFFF) are not modelled, because a Dafny `char` is a Unicode scalar value. Python can hold them in `sys.argv[1]`, where undecodable command-line bytes arrive as U+DC80 to U+DCFF, and in a frame string decoded from a `\ud800` escape. Classification is unaffected, because frame strings are only compared with `"OK"` and a hex id. What `.strip()` and encryption do with such a message is not modelled.
- `datetime.now()` is the parameter `now`. The diagnostic texts printed to stdout and stderr are not modelled. `sys.exit` is the returned `Status`, with `Alerter.ExitCode` giving the number.
- Repeating a broadcast with the same event against an always-confirming relay gives the same result. No lemma states this because every member is a pure function.
