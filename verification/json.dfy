/** The decoded JSON values a relay can send back, reduced to the cases the
    acknowledgment matcher distinguishes. */
module Json {

  datatype Value =
    | List(items: seq<Value>)  // a JSON array, in order
    | Str(text: string)        // a JSON string
    | Bool(truth: bool)        // `true` or `false`
    | Other                    // a number, `null` or an object

  /** What one turn of the wait loop obtains from the socket
      (modules/nostr_alerter.py:93-116). */
  datatype Poll =
    | Nothing              // socket not connected, `recv` raised, or an empty read
    | Undecodable          // bytes that are not UTF-8 or not JSON
    | Frame(value: Value)  // a decoded frame
}
