/**
 * The values the reorganisation pipeline works on: JSON values as the remote
 * service delivers them, raw message records, per-session values and the
 * reorganised per-session values.
 */
module Records {
  import opened Wrappers

  /** A JSON value as `json.loads` produces it (numbers are kept as their literal text). */
  datatype Json =
    | JNull
    | JBool(b: bool)
    | JNumber(literal: string)
    | JString(str: string)
    | JArray(items: seq<Json>)
    | JObject(fields: map<string, Json>)

  /** The one exception the core lets escape: `.get` called on a `params` value that is not a dict. */
  datatype PyError = AttributeError

  /**
   * A raw message record: a dict whose optional keys are `sender`, `content`
   * and `timestamp` (None stands for an absent key).
   */
  datatype Message = Message(sender: Option<string>, content: Option<Json>, timestamp: Option<string>)

  /** A JSON value that `isinstance(value, list)` rejects */
  type NonList = j: Json | !j.JArray? witness JNull

  /** A session's raw value: a list of message records, or any value that is not a list, which is passed through. */
  datatype Session = Messages(messages: seq<Message>) | Opaque(raw: NonList)

  /** One turn: a dict from sender to extracted text. */
  type Turn = map<string, Json>

  /** A session's reorganised value: its conversation, or the passed-through raw value. */
  datatype Reorganized = Conversation(turns: seq<Turn>) | Passthrough(raw: Json)

  /** Python dicts keyed by session id, in insertion order. */
  type Dict<V> = seq<(string, V)>

  /** The keys of a dict, in insertion order */
  function Keys<V>(d: Dict<V>): seq<string> {
    seq(|d|, i requires 0 <= i < |d| => d[i].0)
  }
}
