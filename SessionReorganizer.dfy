/**
 * The outer loop of `reorganize_conversations`: every list session becomes
 * its conversation, any other session value is passed through, and an
 * AttributeError raised for one session aborts the whole call.
 */
module SessionReorganizer {
  import opened Wrappers
  import opened Records
  import opened TurnAggregator

  /** What one session's value is specified to become */
  function ReorganizeValue(v: Session, parse: string -> Option<Json>, show: Json -> string)
    : Result<Reorganized, PyError>
  {
    match v
    case Opaque(raw) => Success(Passthrough(raw))
    case Messages(ms) =>
      match Turns(ms, parse, show)
      case Failure(e) => Failure(e)
      case Success(turns) => Success(Conversation(turns))
  }

  /** `reorganize_conversations`: every session in the order of the input, with the same ids */
  method ReorganizeConversations(data: Dict<Session>, parse: string -> Option<Json>, show: Json -> string)
    returns (r: Result<Dict<Reorganized>, PyError>)
    ensures r.Failure? <==> exists i :: 0 <= i < |data| && ReorganizeValue(data[i].1, parse, show).Failure?
    ensures r.Success? ==> Keys(r.value) == Keys(data)
    ensures r.Success? ==> forall i :: 0 <= i < |data| ==>
      ReorganizeValue(data[i].1, parse, show) == Success(r.value[i].1)
  {
    var reorganized: Dict<Reorganized> := [];
    var i := 0;
    while i < |data|
      invariant 0 <= i <= |data|
      invariant |reorganized| == i
      invariant forall k :: 0 <= k < i ==>
        reorganized[k].0 == data[k].0 && ReorganizeValue(data[k].1, parse, show) == Success(reorganized[k].1)
    {
      var (id, messages) := data[i];
      if messages.Messages? {
        var conversation := ReorganizeSession(messages.messages, parse, show);
        if conversation.Failure? {
          return Failure(conversation.error);
        }
        reorganized := reorganized + [(id, Conversation(conversation.value))];
      } else {
        reorganized := reorganized + [(id, Passthrough(messages.raw))];
      }
      i := i + 1;
    }
    r := Success(reorganized);
  }
}
