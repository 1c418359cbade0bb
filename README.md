# Message reorganisation pipeline: a Dafny model

This project models the pure core of `extracao.py`. That script fetches chat sessions from a
remote service, reorganises them and exports them to a spreadsheet. The part modelled here is
the middle of that pipeline: three functions that work on the decoded JSON of the sessions.

- `sort_messages_by_timestamp` sorts every list session by its message timestamps. A missing
  timestamp counts as `""`. Any other session value is passed through.
- `extract_text_from_content` turns one message body into text. It tries a structured payload
  (`{...}` that parses to a dict with `params`), then the first `<text>…</text>` span, then
  strips `<…>` tags. It stringifies a non-string body.
- `reorganize_conversations` runs a state machine over each list session. It drops messages
  without a sender and turns every maximal run of one sender into a single-sender turn. Because
  the turn's entry is overwritten, that turn holds the text of the run's last message.

The modules follow that structure:

- `Wrappers` defines `Option` and `Result`.
- `Records` defines the JSON values, message records, session values and the reorganised values.
  It models a dict of sessions as an association list in insertion order.
- `TextScan` holds the scanners that stand in for `str.strip()`, for
  `re.search(r'<text>(.*?)</text>', s, re.DOTALL)` and for `re.sub(r'<.*?>', '', s)`.
- `ContentExtractor` holds the extractor.
- `TemporalSorter` holds the sorter: the string order, a stable insertion sort as the model of
  `sorted`, and the loop over the sessions.
- `TurnAggregator` holds the per-session state machine, proved against a functional
  specification: kept messages, their utterances, and one entry per maximal run.
- `SessionReorganizer` holds the loop over the sessions.

`json.loads` and Python's `str()` are parameters of the model:

- `parse: string -> Option<Json>` stands for `json.loads`. `None` stands for a `JSONDecodeError`.
- `show: Json -> string` stands for `str()`.

Every property below therefore holds for any behaviour of those two functions.

Two behaviours of the code are easy to overlook, and the model keeps both:

- **Extraction can raise.** Line 50 calls `.get` on `params`. When `params` is present but is
  not a dict, that raises `AttributeError`, and the `except` at line 51 only catches
  `JSONDecodeError`. The model returns `Failure(AttributeError)` in that case, and
  `reorganize_conversations` passes the failure on to its caller.
- **Extraction is not idempotent on all tag-free text.** A string that is not `{...}`-shaped is
  only trimmed (line 56), and trimming can expose a `{...}`-shaped payload that a second
  extraction then decodes (lines 46-50). `ExtractNotIdempotent` gives such an input, and
  `ExtractIdempotentOnPlainText` proves idempotence when the trimmed text is not `{...}`-shaped
  either.

## Model

| member | source | states |
|---|---|---|
| TextScan.IsSpace | extracao.py:55-56 | the characters for which Python's `str.isspace()` holds, which `strip()` removes; used by SkipSpace, SkipSpaceBack and the Trim lemmas |
| TextScan.SkipSpace | extracao.py:55-56 | the first non-whitespace index at or after i: everything skipped is whitespace and the character it stops at is not |
| TextScan.SkipSpaceBack | extracao.py:55-56 | the end of s[lo..hi] once trailing whitespace is dropped: everything dropped is whitespace, and the last kept character is not |
| TextScan.Trim | extracao.py:55-56 | `strip()` yields a string no longer than its input, with no whitespace at either edge |
| TextScan.TrimDecomposes | extracao.py:55-56 | every string is leading whitespace, then its stripped form, then trailing whitespace |
| TextScan.TrimUnique | extracao.py:55-56 | for whitespace w1, w2 and a core with no edge whitespace, strip(w1 + core + w2) == core; with TrimDecomposes this fixes `strip` completely |
| TextScan.TrimIdempotent | extracao.py:55-56 | stripping twice is stripping once |
| TextScan.TrimKeepsAbsent | extracao.py:55-56 | stripping introduces no character that was not in the input |
| TextScan.SkipSpaceAt | extracao.py:55-56 | SkipSpace stops exactly at the first non-whitespace character after a whitespace run |
| TextScan.SkipSpaceBackAt | extracao.py:55-56 | SkipSpaceBack stops exactly behind the last non-whitespace character before a whitespace run |
| TextScan.Find | extracao.py:53 | the first occurrence of a pattern at or after a position, or None exactly when it never occurs there |
| TextScan.FindTextSpan | extracao.py:53-55 | the inner bounds of the leftmost `<text>` with some later `</text>` and of the nearest such `</text>` (across line breaks); None exactly when no `<text>` is followed by `</text>` |
| TextScan.LineHead | extracao.py:56 | the prefix before the first line break: it has no line break, and the next character is one |
| TextScan.CloseOnLine | extracao.py:56 | where `.*?>` ends after a `<`: the first '>' with no line break before it, None exactly when the line has no '>' |
| TextScan.StripTags | extracao.py:56 | `re.sub(r'<.*?>', '', s)`, left to right and without overlap; never longer than its input |
| TextScan.StripTagsKeepsLineHead | extracao.py:56 | a line prefix without '>' keeps that property after stripping |
| TextScan.StripTagsTagFree | extracao.py:56 | after stripping, no `<` has a `>` after it on its line, so the pattern no longer matches |
| TextScan.StripTagsOfTagFree | extracao.py:56 | a string the pattern does not match is left unchanged |
| TextScan.StripTagsIdempotent | extracao.py:56 | stripping tags twice is stripping them once |
| TextScan.StripTagsNoAngle | extracao.py:56 | a string without '<' is left unchanged |
| TextScan.StripTagsKeepsPlainPrefix | extracao.py:56 | text before the first '<' is kept as it is, and stripping continues behind it |
| TextScan.StripTagsKeepsOpenAngle | extracao.py:56 | a `<` with no `>` after it on its line is kept, and stripping continues behind it; with StripTagsKeepsPlainPrefix and StripTagsRemovesTag this settles every case of the substitution |
| TextScan.StripTagsRemovesTag | extracao.py:56 | a `<x>` with no '>' and no line break in x is removed entirely |
| TextScan.LineHeadOfPrefix | extracao.py:56 | the line head of a prefix holds only characters of the longer string's line head |
| TextScan.SliceTagFree | extracao.py:56 | every slice of a string the pattern `<.*?>` does not match is not matched either |
| TextScan.TrimKeepsTagFree | extracao.py:55-56 | stripping whitespace from a string the pattern does not match leaves one it does not match |
| TextScan.CloseOnLineAfter | extracao.py:56 | in `x>v`, with no '>' and no line break in x, the lazy match ends at the '>' right after x |
| ContentExtractor.ObjectShaped | extracao.py:46 | the test `startswith('{') and endswith('}')`; a predicate, used by the Extract lemmas below |
| ContentExtractor.PayloadRule | extracao.py:46-52 | the structured-payload rule on the result of `json.loads`; what it yields is stated by ExtractPayload and ExtractFailsIff |
| ContentExtractor.MarkupRule | extracao.py:53-56 | the `<text>` rule, else tag stripping, each followed by `strip()`; what it yields is stated by ExtractTextSpan and ExtractStripsTags |
| ContentExtractor.Extract | extracao.py:44-57 | the model of `extract_text_from_content`; its behaviour on every kind of input is stated by ExtractFailsIff, ExtractNonString, ExtractPayload, ExtractTextSpan, ExtractStripsTags and ExtractPlainText |
| ContentExtractor.ExtractFailsIff | extracao.py:46-50 | extraction fails exactly for a `{...}` string that parses to a dict whose `params` is not a dict |
| ContentExtractor.ExtractNonString | extracao.py:57 | a body that is not a string becomes `str(content)` |
| ContentExtractor.ExtractPayload | extracao.py:46-50 | a `{...}` string that parses to a dict with dict-valued `params` yields `params["motivo"]` (of any JSON type) or the raw string unchanged, without trimming or tag stripping |
| ContentExtractor.ExtractTextSpan | extracao.py:53-55 | without a payload, the leftmost `<text>` that some `</text>` follows yields, trimmed, the text up to the nearest `</text>` after it, line breaks included |
| ContentExtractor.ExtractStripsTags | extracao.py:56 | without a payload and without a `<text>…</text>` span, the result is the tag-stripped text, trimmed, and no tag is left in it |
| ContentExtractor.ExtractPlainText | extracao.py:46-56 | a string without '<' that is not `{...}`-shaped becomes its trimmed self |
| ContentExtractor.NoOpenTag | extracao.py:53 | a string without '<' holds no `<text>` |
| ContentExtractor.TagFreeNoOpenTag | extracao.py:53-56 | a string the pattern `<.*?>` does not match holds no `<text>` |
| ContentExtractor.ExtractTagFree | extracao.py:46-56 | a string the pattern `<.*?>` does not match (such as `a < b`) and that is not `{...}`-shaped becomes its trimmed self |
| ContentExtractor.ExtractIdempotentOnPlainText | extracao.py:44-57 | on text the pattern `<.*?>` does not match (such as `a < b`) that is not `{...}`-shaped before or after trimming, extracting the extracted text changes nothing |
| ContentExtractor.ExtractMissingContent | extracao.py:56-70 | a missing content (`''`) yields `""` |
| ContentExtractor.ExtractNotIdempotent | extracao.py:46-56 | ` {"params":{"motivo":"refund"}} ` is only trimmed, but its trimmed form yields `refund`: extraction is not idempotent on all tag-free text |
| TemporalSorter.LexLe | extracao.py:37 | Python's `<=` on strings, by code point; that it is a total order is stated by the four LexLe lemmas below |
| TemporalSorter.Key | extracao.py:37 | the sort key `x.get('timestamp', '')`; EmptyIsLeast and SortMissingTimestampsFirst state what the default means for the order |
| TemporalSorter.LexLeReflexive | extracao.py:37 | Python's string order is reflexive |
| TemporalSorter.LexLeTotal | extracao.py:37 | Python's string order is total |
| TemporalSorter.LexLeAntisymmetric | extracao.py:37 | Python's string order is antisymmetric |
| TemporalSorter.LexLeTransitive | extracao.py:37 | Python's string order is transitive |
| TemporalSorter.EmptyIsLeast | extracao.py:37 | the key `''` of a message without a timestamp is below every key |
| TemporalSorter.Insert | extracao.py:37 | inserting adds exactly the one element (multiset equality) |
| TemporalSorter.SortByTimestamp | extracao.py:37 | the sorted list is a permutation of the input |
| TemporalSorter.InsertSorted | extracao.py:37 | inserting into an ascending list keeps it ascending |
| TemporalSorter.SortSorted | extracao.py:37 | the output is ascending by `timestamp`, `''` when the timestamp is absent |
| TemporalSorter.InsertWithKey | extracao.py:37 | an insertion puts the element in front of its own key's elements and leaves every key's order otherwise unchanged |
| TemporalSorter.SortStable | extracao.py:37 | for every key, the messages with that key keep their input order |
| TemporalSorter.SortMissingTimestampsFirst | extracao.py:37 | only messages with an empty key come before a message without a timestamp |
| TemporalSorter.SortedStableUnique | extracao.py:37 | two ascending arrangements with the same per-key order are equal, so sortedness and stability determine what `sorted` returns |
| TemporalSorter.SortStableAll | extracao.py:37 | stability for every key at once |
| TemporalSorter.SortSession | extracao.py:36-40 | a list session becomes an ascending, stable permutation of itself; any other value is returned unchanged |
| TemporalSorter.SortMessagesByTimestamp | extracao.py:33-41 | the result has the input's session ids in the input's order, and each value is its session sorted or passed through |
| TurnAggregator.Attributed | extracao.py:67-69 | `message.get('sender')` is truthy: present and not `''`; used by Kept, TurnsFailIff and SkipUnattributed |
| TurnAggregator.SenderOf | extracao.py:67-74 | `message.get('sender')`, the key under which line 74 stores the text; TurnsShape and ExtractEachSpec state how it keys the turns |
| TurnAggregator.ContentOf | extracao.py:70 | `message.get('content', '')`; ExtractMissingContent states what an absent content yields |
| TurnAggregator.Kept | extracao.py:66-69 | the kept messages are input messages with a truthy sender |
| TurnAggregator.KeptAppend | extracao.py:66-69 | keeping messages distributes over concatenation |
| TurnAggregator.KeptIndex | extracao.py:66-69 | every message with a truthy sender is among those kept |
| TurnAggregator.KeptNone | extracao.py:66-69 | with no truthy sender, nothing is kept |
| TurnAggregator.ExtractEach | extracao.py:70 | the extraction of each kept message in order, stopping at the first failure; stated by ExtractEachSpec |
| TurnAggregator.ExtractEachSpec | extracao.py:70 | each kept message gives one utterance, its sender with its extracted text; it fails exactly when one of the extractions fails |
| TurnAggregator.Group | extracao.py:71-75 | one utterance per maximal run of one sender, never more than the input; what it keeps is stated by GroupIsRunEnds, GroupAlternates, GroupEnds and GroupSnoc |
| TurnAggregator.GroupEnds | extracao.py:71-77 | a non-empty conversation starts with the first sender and ends with the last utterance |
| TurnAggregator.GroupAlternates | extracao.py:71-73 | adjacent entries never have the same sender |
| TurnAggregator.RunEnds | extracao.py:71-75 | the positions of the last utterance of each run, ascending |
| TurnAggregator.RunEndsComplete | extracao.py:71-75 | every run end is listed |
| TurnAggregator.GroupIsRunEnds | extracao.py:71-75 | the grouped conversation is exactly the last utterance of each maximal run, in order |
| TurnAggregator.GroupSnoc | extracao.py:71-75 | one more utterance overwrites the open turn when the sender repeats, and otherwise opens a new turn |
| TurnAggregator.Utterances | extracao.py:66-70 | the utterances of a session's kept messages; stated by ExtractEachSpec, UtterancesStep and UtterancesFailureStays |
| TurnAggregator.Turns | extracao.py:62-78 | the specified conversation of a list session; stated by TurnsShape, TurnsFailIff, SkipUnattributed and TurnsEmpty, and ReorganizeSession is proved equal to it |
| TurnAggregator.TurnsShape | extracao.py:71-77 | a conversation has one turn per maximal run of kept senders, in run order; each turn has exactly one key and holds the text of its run's last message; adjacent turns have different senders |
| TurnAggregator.TurnsFailIff | extracao.py:67-70 | the session fails exactly when the extraction of some message with a truthy sender fails |
| TurnAggregator.SkipUnattributed | extracao.py:67-69 | inserting a message without a truthy sender anywhere changes nothing: it neither closes a turn nor is extracted |
| TurnAggregator.TurnsEmpty | extracao.py:63-78 | an empty list, or one with only skipped messages, yields `[]` |
| TurnAggregator.UtterancesFailureStays | extracao.py:70 | a failure among the first messages is the failure of the whole session |
| TurnAggregator.UtterancesStep | extracao.py:66-70 | how one more message changes the utterances: skipped, appended with its text, or failed |
| TurnAggregator.StepKeepsState | extracao.py:71-75 | one loop step keeps `conversation + [current_entry]` equal to the turns of the messages seen so far, and keeps `last_sender` as the last sender |
| TurnAggregator.ReorganizeSession | extracao.py:62-78 | the state machine over one list session returns exactly the specified conversation, or the AttributeError of the first failing extraction |
| SessionReorganizer.ReorganizeValue | extracao.py:62-80 | what one session value becomes: a list becomes its conversation (Turns), any other value is passed through; ReorganizeConversations is proved against it |
| SessionReorganizer.ReorganizeConversations | extracao.py:59-81 | the call fails exactly when some session fails; on success the session ids are kept in order, every list session becomes its conversation and every other value is passed through |

## Left out

- `fetch_session_data` and `organize_sessions_data` (extracao.py:10-30) are not modelled: they
  do network I/O through `requests`.
- `json_to_excel` (extracao.py:84-116) is not modelled: it drives the openpyxl library and writes
  a file.
- `get_first_timestamp` (extracao.py:119-132) is not modelled: it relies on `datetime` parsing
  and formatting and on the wall clock.
- `main` (extracao.py:135-162) is not modelled: it reads stdin, parses ids, creates
  directories and prints.
- `json.loads` and `str()` are parameters, not definitions. The model therefore does not know
  which strings are valid JSON, or how a value is printed.
- The regular-expression engine is not modelled in general. The two patterns the code uses are
  written out as scanners.
- The model restricts message records to dicts, and senders and timestamps to strings or
  absent keys. The source also accepts other values:
  - A list element that is not a dict makes `.get` raise `AttributeError` (lines 37 and 67).
  - A falsy non-string sender such as `0`, `False` or `[]` is skipped at line 68.
  - A truthy number or boolean sender is stored as that key (line 74), for example `5` or
    `True`; the model's `Turn` keys are strings only.
  - A truthy list or dict sender raises an unhashable-key `TypeError` at line 74.
  - A `timestamp` of `None` or another non-string value is only compared when at least two
    messages are sorted (line 37); comparing it with a string, or `None` with `None`, raises
    `TypeError`, while numbers compare among themselves.
- A JSON object is a `map`, so `Json` forgets the key order and duplicate keys of a decoded
  object. `str(content)` of a dict content (line 57) prints its keys in insertion order, which
  the `show` parameter therefore cannot see.
- `str.strip()` whitespace is the fixed set of characters for which Python's `str.isspace()`
  holds. No other Unicode processing is modelled.
- A Python dict of sessions is an association list in insertion order, assumed to have distinct
  keys. The methods append to it rather than assigning into a hash table.
- TemporalSorter.SortByTimestamp is an insertion sort, not Python's Timsort.
  `SortedStableUnique` proves that any sorted, stable arrangement is this one, so the output is
  the same.
- ContentExtractor.ExtractIdempotentOnPlainText does not promise idempotence on all tag-free
  text (no `<` with a `>` after it on its line) that is not `{...}`-shaped: it also requires the trimmed text not to be `{...}`-shaped,
  because without that the property fails, as ContentExtractor.ExtractNotIdempotent shows.
