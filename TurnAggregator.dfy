/**
 * The per-session part of `reorganize_conversations`: a state machine over a
 * session's messages that drops messages without a sender, and collapses each
 * maximal run of one sender's messages into one turn holding the text of the
 * run's last message.
 */
module TurnAggregator {
  import opened Wrappers
  import opened Records
  import opened ContentExtractor

  /** `message.get('sender')` is truthy: present and not the empty string */
  predicate Attributed(m: Message) {
    m.sender.Some? && m.sender.value != ""
  }

  function SenderOf(m: Message): string {
    m.sender.GetOr("")
  }

  /** `message.get('content', '')` */
  function ContentOf(m: Message): Json {
    m.content.GetOr(JString(""))
  }

  /** The messages that take part in a conversation, in order */
  function Kept(ms: seq<Message>): (r: seq<Message>)
    ensures |r| <= |ms|
    ensures forall m :: m in r ==> m in ms && Attributed(m)
  {
    if ms == [] then []
    else (if Attributed(ms[0]) then [ms[0]] else []) + Kept(ms[1..])
  }

  /** Keeping distributes over concatenation */
  lemma {:induction false} KeptAppend(a: seq<Message>, b: seq<Message>)
    ensures Kept(a + b) == Kept(a) + Kept(b)
  {
    if a == [] {
      assert a + b == b;
    } else {
      assert (a + b)[1..] == a[1..] + b;
      KeptAppend(a[1..], b);
    }
  }

  /** An utterance: a sender and the text extracted from its message */
  type Utterance = (string, Json)

  /**
   * The utterances of the kept messages, extracted in order; the first failing
   * extraction is the AttributeError the whole call raises.
   */
  function ExtractEach(kept: seq<Message>, parse: string -> Option<Json>, show: Json -> string)
    : Result<seq<Utterance>, PyError>
  {
    if kept == [] then Success([])
    else
      var init := kept[..|kept| - 1];
      var m := kept[|kept| - 1];
      match ExtractEach(init, parse, show)
      case Failure(e) => Failure(e)
      case Success(us) =>
        match Extract(ContentOf(m), parse, show)
        case Failure(e) => Failure(e)
        case Success(text) => Success(us + [(SenderOf(m), text)])
  }

  /**
   * Each kept message gives one utterance, its sender with its extracted text;
   * the extraction fails exactly when one of the messages' extractions does.
   */
  lemma {:induction false} ExtractEachSpec(kept: seq<Message>, parse: string -> Option<Json>, show: Json -> string)
    ensures var r := ExtractEach(kept, parse, show);
      && (r.Success? ==> |r.value| == |kept|)
      && (r.Success? ==> forall i :: 0 <= i < |kept| ==>
            r.value[i].0 == SenderOf(kept[i]) && Extract(ContentOf(kept[i]), parse, show) == Success(r.value[i].1))
      && (r.Failure? <==> exists i :: 0 <= i < |kept| && Extract(ContentOf(kept[i]), parse, show).Failure?)
  {
    if kept != [] {
      var init := kept[..|kept| - 1];
      ExtractEachSpec(init, parse, show);
      assert forall i :: 0 <= i < |init| ==> init[i] == kept[i];
    }
  }

  /** `m` is the last message of its run in us */
  predicate RunEnd(us: seq<Utterance>, i: int) {
    0 <= i < |us| && (i == |us| - 1 || us[i].0 != us[i + 1].0)
  }

  /**
   * One utterance per maximal run of equal senders: the run's last one, since
   * every message of a run overwrites the turn's entry for that sender.
   */
  function Group(us: seq<Utterance>): (r: seq<Utterance>)
    ensures |r| <= |us|
  {
    if us == [] then []
    else if |us| >= 2 && us[0].0 == us[1].0 then Group(us[1..])
    else [us[0]] + Group(us[1..])
  }

  /** A non-empty conversation starts with the first sender and ends with the last utterance */
  lemma {:induction false} GroupEnds(us: seq<Utterance>)
    requires us != []
    ensures var g := Group(us); g != [] && g[0].0 == us[0].0 && g[|g| - 1] == us[|us| - 1]
  {
    if |us| >= 2 { GroupEnds(us[1..]); }
  }

  /** Adjacent entries never share a sender */
  lemma {:induction false} GroupAlternates(us: seq<Utterance>)
    ensures var g := Group(us); forall i, j :: 0 <= i && j == i + 1 && j < |g| ==> g[i].0 != g[j].0
  {
    if us != [] {
      GroupAlternates(us[1..]);
      if |us| >= 2 { GroupEnds(us[1..]); }
      var g := Group(us);
      var g1 := Group(us[1..]);
      if !(|us| >= 2 && us[0].0 == us[1].0) {
        assert g == [us[0]] + g1;
        forall i, j | 0 <= i && j == i + 1 && j < |g| ensures g[i].0 != g[j].0 {
          if i > 0 { assert g[i] == g1[i - 1] && g[j] == g1[j - 1]; }
        }
      }
    }
  }

  /** The positions of the run ends at or after `from`, ascending */
  function RunEnds(us: seq<Utterance>, from: nat): (r: seq<nat>)
    ensures forall k :: 0 <= k < |r| ==> from <= r[k] && RunEnd(us, r[k])
    ensures forall k, l :: 0 <= k < l < |r| ==> r[k] < r[l]
    decreases |us| - from
  {
    if from >= |us| then []
    else (if RunEnd(us, from) then [from] else []) + RunEnds(us, from + 1)
  }

  /** Every run end at or after `from` is listed */
  lemma {:induction false} RunEndsComplete(us: seq<Utterance>, from: nat, i: nat)
    requires from <= i && RunEnd(us, i)
    ensures i in RunEnds(us, from)
    decreases |us| - from
  {
    if from < i { RunEndsComplete(us, from + 1, i); }
  }

  /** Group keeps exactly the last utterance of each run, in order */
  lemma {:induction false} GroupIsRunEnds(us: seq<Utterance>, from: nat)
    requires from <= |us|
    ensures var e := RunEnds(us, from);
      |Group(us[from..])| == |e| && forall k :: 0 <= k < |e| ==> Group(us[from..])[k] == us[e[k]]
    decreases |us| - from
  {
    if from < |us| {
      GroupIsRunEnds(us, from + 1);
      var t := us[from..];
      assert t[1..] == us[from + 1..] && t[0] == us[from];
      assert |t| >= 2 ==> t[1] == us[from + 1];
      var g, e := Group(us[from + 1..]), RunEnds(us, from + 1);
      if RunEnd(us, from) {
        assert Group(t) == [us[from]] + g;
        assert RunEnds(us, from) == [from] + e;
      } else {
        assert Group(t) == g;
        assert RunEnds(us, from) == [] + e;
      }
    }
  }

  /** Extending a conversation by one utterance: it overwrites the open turn or opens a new one */
  lemma {:induction false} GroupSnoc(us: seq<Utterance>, u: Utterance)
    ensures us != [] && us[|us| - 1].0 == u.0 ==>
      Group(us) != [] && Group(us + [u]) == Group(us)[..|Group(us)| - 1] + [u]
    ensures us == [] || us[|us| - 1].0 != u.0 ==> Group(us + [u]) == Group(us) + [u]
  {
    if us == [] {
      assert Group([u]) == [u] + Group([]);
    } else {
      assert (us + [u])[1..] == us[1..] + [u];
      if |us| == 1 {
        assert Group(us) == [us[0]];
      } else {
        GroupSnoc(us[1..], u);
        GroupEnds(us[1..]);
      }
    }
  }

  /** One turn, a dict with a single sender */
  function TurnOf(u: Utterance): (t: Turn)
    ensures t.Keys == {u.0} && t[u.0] == u.1
  {
    map[u.0 := u.1]
  }

  /** One turn per utterance, in order */
  function TurnsOf(us: seq<Utterance>): seq<Turn> {
    seq(|us|, i requires 0 <= i < |us| => TurnOf(us[i]))
  }

  /** The utterances of a session: its kept messages' extracted texts */
  function Utterances(ms: seq<Message>, parse: string -> Option<Json>, show: Json -> string)
    : Result<seq<Utterance>, PyError>
  {
    ExtractEach(Kept(ms), parse, show)
  }

  /** What the conversation of a session's message list is specified to be */
  function Turns(ms: seq<Message>, parse: string -> Option<Json>, show: Json -> string)
    : Result<seq<Turn>, PyError>
  {
    match Utterances(ms, parse, show)
    case Failure(e) => Failure(e)
    case Success(us) => Success(TurnsOf(Group(us)))
  }

  /**
   * The conversation of a list: one single-sender turn per maximal run of the
   * kept messages' senders, holding the text of the run's last message;
   * adjacent turns have different senders.
   */
  lemma TurnsShape(ms: seq<Message>, parse: string -> Option<Json>, show: Json -> string)
    requires Utterances(ms, parse, show).Success?
    ensures var us := Utterances(ms, parse, show).value;
      var ends := RunEnds(us, 0);
      var ts := Turns(ms, parse, show).value;
      && |ts| == |ends|
      && (forall k :: 0 <= k < |ts| ==> ts[k] == map[us[ends[k]].0 := us[ends[k]].1] && |ts[k].Keys| == 1)
      && (forall k, l :: 0 <= k && l == k + 1 && l < |ts| ==> ts[k].Keys != ts[l].Keys)
  {
    var us := Utterances(ms, parse, show).value;
    GroupIsRunEnds(us, 0);
    GroupAlternates(us);
    assert us[0..] == us;
    var g := Group(us);
    var ts := TurnsOf(g);
    assert Turns(ms, parse, show).value == ts;
    forall k, l | 0 <= k && l == k + 1 && l < |ts| ensures ts[k].Keys != ts[l].Keys {
      assert ts[k].Keys == {g[k].0} && ts[l].Keys == {g[l].0};
      assert g[k].0 in ts[k].Keys;
    }
  }

  /** Every kept message is extracted: the call raises exactly when one of their extractions does */
  lemma TurnsFailIff(ms: seq<Message>, parse: string -> Option<Json>, show: Json -> string)
    ensures Turns(ms, parse, show).Failure? <==>
      exists m :: m in ms && Attributed(m) && Extract(ContentOf(m), parse, show).Failure?
  {
    var kept := Kept(ms);
    ExtractEachSpec(kept, parse, show);
    if Turns(ms, parse, show).Failure? {
      var i :| 0 <= i < |kept| && Extract(ContentOf(kept[i]), parse, show).Failure?;
      assert kept[i] in kept;
    }
    if m :| m in ms && Attributed(m) && Extract(ContentOf(m), parse, show).Failure? {
      var i := KeptIndex(ms, m);
      assert Extract(ContentOf(kept[i]), parse, show).Failure?;
    }
  }

  /** Every attributed message of ms appears among the kept ones */
  lemma {:induction false} KeptIndex(ms: seq<Message>, m: Message) returns (i: nat)
    requires m in ms && Attributed(m)
    ensures i < |Kept(ms)| && Kept(ms)[i] == m
  {
    if ms[0] == m {
      i := 0;
    } else {
      var j := KeptIndex(ms[1..], m);
      i := j + (if Attributed(ms[0]) then 1 else 0);
    }
  }

  /** A message without a sender changes nothing: it neither closes a turn nor is extracted */
  lemma SkipUnattributed(a: seq<Message>, m: Message, b: seq<Message>, parse: string -> Option<Json>, show: Json -> string)
    requires !Attributed(m)
    ensures Turns(a + [m] + b, parse, show) == Turns(a + b, parse, show)
  {
    KeptAppend(a + [m], b);
    KeptAppend(a, [m]);
    KeptAppend(a, b);
    assert Kept([m]) == [] + Kept([]);
    assert Kept(a) + [] == Kept(a);
  }

  /** An empty list, or one without any attributed message, has the empty conversation */
  lemma TurnsEmpty(ms: seq<Message>, parse: string -> Option<Json>, show: Json -> string)
    requires forall m :: m in ms ==> !Attributed(m)
    ensures Turns(ms, parse, show) == Success([])
  {
    KeptNone(ms);
    assert TurnsOf(Group([])) == [];
  }

  /** Without attributed messages nothing is kept */
  lemma {:induction false} KeptNone(ms: seq<Message>)
    requires forall m :: m in ms ==> !Attributed(m)
    ensures Kept(ms) == []
  {
    if ms != [] {
      assert ms[0] in ms;
      assert forall m :: m in ms[1..] ==> m in ms;
      KeptNone(ms[1..]);
    }
  }

  /** Failure of an earlier extraction is not undone by later messages */
  lemma UtterancesFailureStays(ms: seq<Message>, n: nat, parse: string -> Option<Json>, show: Json -> string)
    requires n <= |ms| && Utterances(ms[..n], parse, show).Failure?
    ensures Utterances(ms, parse, show).Failure?
  {
    var a, b := ms[..n], ms[n..];
    assert ms == a + b;
    KeptAppend(a, b);
    ExtractEachSpec(Kept(a), parse, show);
    ExtractEachSpec(Kept(ms), parse, show);
    var i :| 0 <= i < |Kept(a)| && Extract(ContentOf(Kept(a)[i]), parse, show).Failure?;
    assert Kept(ms)[i] == Kept(a)[i];
  }

  /** How one more message changes the utterances of a prefix */
  lemma UtterancesStep(ms: seq<Message>, i: nat, parse: string -> Option<Json>, show: Json -> string)
    requires i < |ms|
    ensures !Attributed(ms[i]) ==> Utterances(ms[..i + 1], parse, show) == Utterances(ms[..i], parse, show)
    ensures (Attributed(ms[i]) && Utterances(ms[..i], parse, show).Success?
             && Extract(ContentOf(ms[i]), parse, show).Success?) ==>
      Utterances(ms[..i + 1], parse, show)
        == Success(Utterances(ms[..i], parse, show).value + [(SenderOf(ms[i]), Extract(ContentOf(ms[i]), parse, show).value)])
    ensures Attributed(ms[i]) && Extract(ContentOf(ms[i]), parse, show).Failure? ==>
      Utterances(ms[..i + 1], parse, show).Failure?
  {
    var m := ms[i];
    assert ms[..i + 1] == ms[..i] + [m];
    KeptAppend(ms[..i], [m]);
    assert Kept([m]) == (if Attributed(m) then [m] else []) + Kept([]);
    var kept := Kept(ms[..i]);
    if Attributed(m) {
      assert Kept(ms[..i + 1]) == kept + [m];
      assert (kept + [m])[..|kept|] == kept;
    } else {
      assert Kept(ms[..i + 1]) == kept;
    }
  }

  /** The source's loop state for the utterances seen so far */
  ghost predicate StateOf(us: seq<Utterance>, conversation: seq<Turn>, current: Turn, last: Option<string>) {
    if us == [] then conversation == [] && current == map[] && last == None
    else
      && last == Some(us[|us| - 1].0)
      && current == TurnOf(us[|us| - 1])
      && conversation + [current] == TurnsOf(Group(us))
  }

  /** One step of the loop: close the open turn if the sender changed, then record the text */
  lemma StepKeepsState(us: seq<Utterance>, conversation: seq<Turn>, current: Turn, last: Option<string>, u: Utterance)
    requires StateOf(us, conversation, current, last)
    ensures var closes := last.Some? && u.0 != last.value;
      var conversation' := if closes then conversation + [current] else conversation;
      var current' := (if closes then map[] else current)[u.0 := u.1];
      StateOf(us + [u], conversation', current', Some(u.0))
  {
    GroupSnoc(us, u);
    if us != [] { GroupEnds(us); }
    var g := Group(us);
    var g' := Group(us + [u]);
    if us != [] && us[|us| - 1].0 == u.0 {
      assert current[u.0 := u.1] == TurnOf(u);
      assert conversation == TurnsOf(g)[..|g| - 1];
      assert TurnsOf(g') == TurnsOf(g)[..|g| - 1] + [TurnOf(u)];
    } else if us != [] {
      assert TurnsOf(g') == TurnsOf(g) + [TurnOf(u)];
    }
  }

  /**
   * The state machine over one list session: `conversation`, `current_entry`
   * and `last_sender` as the source keeps them.
   */
  method ReorganizeSession(messages: seq<Message>, parse: string -> Option<Json>, show: Json -> string)
    returns (r: Result<seq<Turn>, PyError>)
    ensures r == Turns(messages, parse, show)
  {
    var conversation: seq<Turn> := [];
    var current: Turn := map[];
    var last: Option<string> := None;
    var i := 0;
    while i < |messages|
      invariant 0 <= i <= |messages|
      invariant Utterances(messages[..i], parse, show).Success?
      invariant StateOf(Utterances(messages[..i], parse, show).value, conversation, current, last)
    {
      var message := messages[i];
      UtterancesStep(messages, i, parse, show);
      if !Attributed(message) {
        i := i + 1;
        continue;
      }
      var sender := message.sender.value;
      var content := Extract(ContentOf(message), parse, show);
      if content.Failure? {
        UtterancesFailureStays(messages, i + 1, parse, show);
        assert content.error == Utterances(messages, parse, show).error == AttributeError;
        return Failure(content.error);
      }
      StepKeepsState(Utterances(messages[..i], parse, show).value, conversation, current, last, (sender, content.value));
      if last.Some? && sender != last.value {
        conversation := conversation + [current];
        current := map[];
      }
      current := current[sender := content.value];
      last := Some(sender);
      i := i + 1;
    }
    assert messages[..|messages|] == messages;
    if current != map[] {
      conversation := conversation + [current];
    }
    r := Success(conversation);
  }
}
