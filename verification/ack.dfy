/** The acknowledgment matcher: how one inbound frame bears on the event the
    alerter published. A relay answers a published event with the NIP-01 frame
    `["OK", <event id>, <accepted>, <message>]`. */
module Ack {

  import opened Json

  /** The signed event's identifier, opaque apart from equality. */
  type EventId = string

  datatype Verdict = Confirmed | Rejected | Irrelevant

  /** The first two elements of every acknowledgment of `id`. */
  function Header(id: EventId): seq<Value> {
    [Str("OK"), Str(id)]
  }

  /** `p` is a frame that answers `id`: a list of at least three elements
      that starts with the acknowledgment header. */
  predicate Answers(p: Poll, id: EventId) {
    p.Frame? && p.value.List? && |p.value.items| >= 3 && Header(id) <= p.value.items
  }

  /** The matcher of modules/nostr_alerter.py:97-115. Only the exact value
      `true` in third place is an acceptance; any other third element of an
      answering frame is a rejection; everything else, including input that
      did not decode, is ignored. */
  function Classify(p: Poll, id: EventId): (v: Verdict)
    ensures v == Confirmed <==> p.Frame? && p.value.List? && Header(id) + [Bool(true)] <= p.value.items
    ensures v == Rejected <==> Answers(p, id) && p.value.items[2] != Bool(true)
    ensures v == Irrelevant <==> !Answers(p, id)
  {
    match p
    case Frame(List(items)) =>
      if |items| >= 3 && items[0] == Str("OK") && items[1] == Str(id) then
        if items[2] == Bool(true) then Confirmed else Rejected
      else
        Irrelevant
    case _ => Irrelevant
  }

  /** The two NIP-01 answers: `true` confirms and `false` rejects, whatever
      message trails them. */
  lemma NipAnswers(id: EventId, rest: seq<Value>)
    ensures Classify(Frame(List([Str("OK"), Str(id), Bool(true)] + rest)), id) == Confirmed
    ensures Classify(Frame(List([Str("OK"), Str(id), Bool(false)] + rest)), id) == Rejected
  {
  }

  /** An answering frame whose third element is anything but `true` (a
      string "true", a number, null) is a rejection, not an ignored frame. */
  lemma NonTrueRejects(id: EventId, third: Value, rest: seq<Value>)
    requires third != Bool(true)
    ensures Classify(Frame(List([Str("OK"), Str(id), third] + rest)), id) == Rejected
  {
  }

  /** Frames that do not answer `id` leave the wait going on: an answer to
      another event, a short list, another frame kind, a non-list. */
  lemma OthersIgnored(id: EventId, other: EventId, tag: string, third: Value, rest: seq<Value>,
                      items: seq<Value>, v: Value)
    requires other != id
    requires tag != "OK"
    requires |items| < 3
    requires !v.List?
    ensures Classify(Frame(List([Str("OK"), Str(other), third] + rest)), id) == Irrelevant
    ensures Classify(Frame(List([Str(tag), Str(id), third] + rest)), id) == Irrelevant
    ensures Classify(Frame(List(items)), id) == Irrelevant
    ensures Classify(Frame(v), id) == Irrelevant
    ensures Classify(Undecodable, id) == Irrelevant
    ensures Classify(Nothing, id) == Irrelevant
  {
  }
}
