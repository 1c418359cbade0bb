/**
 * `extract_text_from_content`: the best-effort plain text of one message
 * body. The rules are tried in order: a structured payload, a `<text>` span,
 * tag stripping; a body that is not a string is stringified.
 *
 * `json.loads` and Python's `str()` are not modelled; they are the
 * parameters `parse` (None for a JSONDecodeError) and `show`.
 */
module ContentExtractor {
  import opened Wrappers
  import opened Records
  import opened TextScan

  /** `s.startswith('{') and s.endswith('}')` */
  predicate ObjectShaped(s: string) {
    |s| > 0 && s[0] == '{' && s[|s| - 1] == '}'
  }

  /**
   * The structured-payload rule applied to what `json.loads` gave: None when
   * the rule does not apply (a parse failure, a value that is not a dict or
   * one without `params`) and the later rules run.
   */
  function PayloadRule(s: string, parsed: Option<Json>): Option<Result<Json, PyError>>
  {
    if parsed.Some? && parsed.value.JObject? && "params" in parsed.value.fields then
      match parsed.value.fields["params"]
      case JObject(params) => Some(Success(if "motivo" in params then params["motivo"] else JString(s)))
      case _ => Some(Failure(AttributeError))
    else None
  }

  /** The `<text>` rule, or tag stripping when no span is found */
  function MarkupRule(s: string): string {
    match FindTextSpan(s)
    case Some((b, e)) => Trim(s[b..e])
    case None => Trim(StripTags(s))
  }

  /** The text of one message body, or the AttributeError the source raises */
  function Extract(content: Json, parse: string -> Option<Json>, show: Json -> string): Result<Json, PyError>
  {
    match content
    case JString(s) =>
      var payload := if ObjectShaped(s) then PayloadRule(s, parse(s)) else None;
      if payload.Some? then payload.value else Success(JString(MarkupRule(s)))
    case _ => Success(JString(show(content)))
  }

  /** `parsed.get('params', {})` is not a dict, so its `.get` raises */
  predicate ParamsNotDict(s: string, parse: string -> Option<Json>) {
    && ObjectShaped(s)
    && parse(s).Some? && parse(s).value.JObject?
    && "params" in parse(s).value.fields
    && !parse(s).value.fields["params"].JObject?
  }

  /** The structured-payload rule applies: a {...}-shaped string parses to a dict with `params` */
  predicate HasPayload(s: string, parse: string -> Option<Json>) {
    && ObjectShaped(s)
    && parse(s).Some? && parse(s).value.JObject?
    && "params" in parse(s).value.fields
  }

  /** Extraction fails exactly when `params` exists but is not a dict */
  lemma ExtractFailsIff(content: Json, parse: string -> Option<Json>, show: Json -> string)
    ensures Extract(content, parse, show).Failure? <==> content.JString? && ParamsNotDict(content.str, parse)
  {
  }

  /** A body that is not a string is stringified */
  lemma ExtractNonString(content: Json, parse: string -> Option<Json>, show: Json -> string)
    requires !content.JString?
    ensures Extract(content, parse, show) == Success(JString(show(content)))
  {
  }

  /** A payload whose `params` is a dict yields `params["motivo"]` (of any type), else the raw string unchanged */
  lemma ExtractPayload(s: string, parse: string -> Option<Json>, show: Json -> string, params: map<string, Json>)
    requires HasPayload(s, parse) && parse(s).value.fields["params"] == JObject(params)
    ensures Extract(JString(s), parse, show)
         == Success(if "motivo" in params then params["motivo"] else JString(s))
  {
  }

  /**
   * Without a payload, the first `<text>` that some later `</text>` follows
   * yields the trimmed text up to the nearest such `</text>`, line breaks included.
   */
  lemma ExtractTextSpan(s: string, parse: string -> Option<Json>, show: Json -> string, i: nat, j: nat)
    requires !HasPayload(s, parse)
    requires At(s, OpenTag, i) && At(s, CloseTag, j) && i + |OpenTag| <= j
    requires forall k :: 0 <= k < i ==> !At(s, OpenTag, k)
    requires forall k :: i + |OpenTag| <= k < j ==> !At(s, CloseTag, k)
    ensures Extract(JString(s), parse, show) == Success(JString(Trim(s[i + |OpenTag|..j])))
  {
    var span := FindTextSpan(s);
    assert span.Some?;
    var (b, e) := span.value;
    assert b - |OpenTag| == i;
    assert e == j;
  }

  /** Without a payload and a complete `<text>` span, tags are stripped and the rest trimmed; no tag is left */
  lemma ExtractStripsTags(s: string, parse: string -> Option<Json>, show: Json -> string)
    requires !HasPayload(s, parse)
    requires forall i, j :: At(s, OpenTag, i) && At(s, CloseTag, j) ==> j < i + |OpenTag|
    ensures Extract(JString(s), parse, show) == Success(JString(Trim(StripTags(s))))
    ensures TagFree(StripTags(s))
  {
    StripTagsTagFree(s);
  }

  /** A string without '<' that is not {...}-shaped becomes its trimmed self */
  lemma ExtractPlainText(s: string, parse: string -> Option<Json>, show: Json -> string)
    requires '<' !in s && !ObjectShaped(s)
    ensures Extract(JString(s), parse, show) == Success(JString(Trim(s)))
  {
    NoOpenTag(s);
    assert FindTextSpan(s).None?;
    StripTagsNoAngle(s);
    assert MarkupRule(s) == Trim(s);
  }

  /** A string without '<' holds no `<text>` */
  lemma NoOpenTag(s: string)
    requires '<' !in s
    ensures forall i :: !At(s, OpenTag, i)
  {
    forall i ensures !At(s, OpenTag, i) {
      if 0 <= i && i + |OpenTag| <= |s| {
        assert s[i..i + |OpenTag|][0] == s[i];
        assert s[i] in s;
      }
    }
  }

  /** A tag-free string holds no `<text>`: the `>` of `<text>` would close its `<` */
  lemma TagFreeNoOpenTag(s: string)
    requires TagFree(s)
    ensures forall i :: !At(s, OpenTag, i)
  {
    forall i | At(s, OpenTag, i) ensures false {
      assert s[i] == s[i..i + |OpenTag|][0] == '<';
      assert s[i + 1..] == "text" + ">" + s[i + |OpenTag|..];
      CloseOnLineAfter("text", s[i + |OpenTag|..]);
    }
  }

  /** A tag-free string that is not {...}-shaped becomes its trimmed self */
  lemma ExtractTagFree(s: string, parse: string -> Option<Json>, show: Json -> string)
    requires TagFree(s) && !ObjectShaped(s)
    ensures Extract(JString(s), parse, show) == Success(JString(Trim(s)))
  {
    TagFreeNoOpenTag(s);
    assert FindTextSpan(s).None?;
    StripTagsOfTagFree(s);
    assert MarkupRule(s) == Trim(s);
  }

  /**
   * Extraction is idempotent on tag-free text, provided that trimming does not
   * expose a {...}-shaped string (see ExtractNotIdempotent).
   */
  lemma ExtractIdempotentOnPlainText(s: string, parse: string -> Option<Json>, show: Json -> string)
    requires TagFree(s) && !ObjectShaped(s) && !ObjectShaped(Trim(s))
    ensures Extract(JString(s), parse, show) == Success(JString(Trim(s)))
    ensures Extract(Extract(JString(s), parse, show).value, parse, show) == Extract(JString(s), parse, show)
  {
    ExtractTagFree(s, parse, show);
    TrimKeepsTagFree(s);
    ExtractTagFree(Trim(s), parse, show);
    TrimIdempotent(s);
  }

  /** A missing content (`''`) yields the empty text */
  lemma ExtractMissingContent(parse: string -> Option<Json>, show: Json -> string)
    ensures Extract(JString(""), parse, show) == Success(JString(""))
  {
    ExtractPlainText("", parse, show);
  }

  /**
   * Extraction is not idempotent on all plain text: the padded payload
   * ` {"params":{"motivo":"refund"}} ` is not {...}-shaped, so its first
   * extraction only trims it, and the second one takes the payload's `motivo`.
   */
  lemma ExtractNotIdempotent(show: Json -> string)
    ensures var core := "{\"params\":{\"motivo\":\"refund\"}}";
      var parse := (t: string) => if t == core then Some(RefundPayload()) else None;
      && Extract(JString(" " + core + " "), parse, show) == Success(JString(core))
      && Extract(JString(core), parse, show) == Success(JString("refund"))
  {
    var core := "{\"params\":{\"motivo\":\"refund\"}}";
    var parse := (t: string) => if t == core then Some(RefundPayload()) else None;
    var s := " " + core + " ";
    assert s[0] == ' ';
    assert '<' !in s;
    ExtractPlainText(s, parse, show);
    TrimUnique(" ", core, " ");
    assert ObjectShaped(core);
    ExtractPayload(core, parse, show, map["motivo" := JString("refund")]);
  }

  /** What `json.loads` gives for `{"params":{"motivo":"refund"}}` */
  function RefundPayload(): Json {
    JObject(map["params" := JObject(map["motivo" := JString("refund")])])
  }
}
