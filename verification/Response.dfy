/**
 Fitting a tool response into its byte budget (app/dynamic_tools_helpers.go): drop
 supporting history, then search for a per-field limit at which the text fields are cut.
 This module has the JSON values and what becomes of them; `ResponseObjects` has the maps
 and lists in which the original holds them. The encoder is a parameter.
 */
module Response {
  import opened Common

  const MAX_RESPONSE_BYTES: nat := 8000

  datatype Json =
    | Null
    | Bool(b: bool)
    | Num(n: real)
    | Str(s: string)
    | Arr(items: seq<Json>)
    | Obj(fields: map<string, Json>)

  datatype FitError = EncodeFailed | MetadataTooLarge

  /** The encoder of the original: the bytes of the text, or a failure. */
  type Encoder = Json -> Option<seq<Byte>>

  /** The fields that hold cuttable text. */
  predicate IsContent(name: string) {
    name == "text" || name == "title" || name == "summary" || name == "message"
  }

  function Cut(s: string, limit: nat): string {
    if |s| > limit then s[..limit] else s
  }

  /** A content field longer than the limit. */
  predicate IsLongText(name: string, value: Json, limit: nat) {
    IsContent(name) && value.Str? && |value.s| > limit
  }

  predicate HasLongText(fields: map<string, Json>, limit: nat) {
    exists name :: name in fields && IsLongText(name, fields[name], limit)
  }

  /** `dynamicTruncateResponseContent`, on a value. */
  function Truncate(v: Json, limit: nat): Json
    decreases v, 0
  {
    match v
    case Arr(items) => Arr(seq(|items|, i requires 0 <= i < |items| => Truncate(items[i], limit)))
    case Obj(fields) =>
      var cut := map name | name in fields :: CutField(name, fields[name], limit);
      Obj(if HasLongText(fields, limit) then cut["truncated" := Bool(true)] else cut)
    case _ => v
  }

  function CutField(name: string, value: Json, limit: nat): Json
    decreases value, 1
  {
    if IsContent(name) && value.Str? then Str(Cut(value.s, limit)) else Truncate(value, limit)
  }

  /** The fields of a truncated object, one by one. */
  lemma CutObject(fields: map<string, Json>, limit: nat)
    ensures var t, flag := Truncate(Obj(fields), limit), HasLongText(fields, limit);
      && t.Obj? && t.fields.Keys == fields.Keys + (if flag then {"truncated"} else {})
      && (flag ==> t.fields["truncated"] == Bool(true))
      && forall name | name in fields && !(flag && name == "truncated") ::
           t.fields[name] == CutField(name, fields[name], limit)
  {
  }

  /** The fields `text`, `title`, `summary` and `message`, where they hold a string. */
  predicate HoldsText(name: string, value: Json) {
    (name == "text" || name == "title" || name == "summary" || name == "message") && value.Str?
  }

  /** Some text of an object is longer than the limit. */
  ghost predicate HasMore(fields: map<string, Json>, limit: nat) {
    exists name :: name in fields && HoldsText(name, fields[name]) && |fields[name].s| > limit
  }

  /**
   What truncation keeps. List lengths and every field survive; scalars and strings other
   than the four texts are unchanged; a text is its first characters, all of them unless
   there are more than the limit; only the flag of an object whose text was cut is added.
   */
  ghost predicate Trimmed(v: Json, t: Json, limit: nat)
    decreases v
  {
    match v
    case Arr(items) => t.Arr? && |t.items| == |items| && forall i :: 0 <= i < |items| ==> Trimmed(items[i], t.items[i], limit)
    case Obj(fields) =>
      && t.Obj?
      && t.fields.Keys == fields.Keys + (if HasMore(fields, limit) then {"truncated"} else {})
      && (HasMore(fields, limit) ==> t.fields["truncated"] == Bool(true))
      && forall name :: name in fields && (name == "truncated" ==> !HasMore(fields, limit)) ==>
           if HoldsText(name, fields[name]) then
             t.fields[name] == if |fields[name].s| > limit then Str(fields[name].s[..limit]) else fields[name]
           else Trimmed(fields[name], t.fields[name], limit)
    case _ => t == v
  }

  lemma {:induction false} TruncateTrims(v: Json, limit: nat)
    ensures Trimmed(v, Truncate(v, limit), limit)
  {
    match v
    case Arr(items) =>
      forall i | 0 <= i < |items| ensures Trimmed(items[i], Truncate(v, limit).items[i], limit) {
        TruncateTrims(items[i], limit);
      }
    case Obj(fields) =>
      var t := Truncate(v, limit).fields;
      forall name | name in fields && !(IsContent(name) && fields[name].Str?)
        ensures Trimmed(fields[name], Truncate(fields[name], limit), limit)
      {
        TruncateTrims(fields[name], limit);
      }
      assert t.Keys == fields.Keys + (if HasLongText(fields, limit) then {"truncated"} else {});
    case _ =>
  }

  // Values by path

  datatype Step = Field(name: string) | Item(index: nat)

  function Lookup(v: Json, path: seq<Step>): Option<Json> {
    if path == [] then Some(v)
    else match path[0]
      case Field(name) => if v.Obj? && name in v.fields then Lookup(v.fields[name], path[1..]) else None
      case Item(index) => if v.Arr? && index < |v.items| then Lookup(v.items[index], path[1..]) else None
  }

  /** The last step leads to a field `text`, `title`, `summary` or `message`. */
  predicate EndsInText(path: seq<Step>) {
    path != [] && path[|path| - 1] in {Field("text"), Field("title"), Field("summary"), Field("message")}
  }

  predicate IsScalar(v: Json) {
    !v.Arr? && !v.Obj?
  }

  /** Wherever a response has a scalar that is no text and no flag, the other has the same one: ids, statuses, cursors. */
  ghost predicate KeepsScalars(v: Json, t: Json) {
    forall path | Field("truncated") !in path && Lookup(v, path).Some? && IsScalar(Lookup(v, path).value)
                  && !(EndsInText(path) && Lookup(v, path).value.Str?) ::
      Lookup(t, path) == Lookup(v, path)
  }

  /** Wherever a response has a text, the other has its first characters, at most as many as the limit. */
  ghost predicate CutsTexts(v: Json, t: Json, limit: nat) {
    forall path | EndsInText(path) && Field("truncated") !in path && Lookup(v, path).Some? && Lookup(v, path).value.Str? ::
      Lookup(t, path) == Some(Str(if |Lookup(v, path).value.s| > limit then Lookup(v, path).value.s[..limit] else Lookup(v, path).value.s))
  }

  lemma {:induction false} TrimmedAt(v: Json, t: Json, limit: nat, path: seq<Step>)
    requires Trimmed(v, t, limit) && Field("truncated") !in path && Lookup(v, path).Some? && IsScalar(Lookup(v, path).value)
    ensures !(EndsInText(path) && Lookup(v, path).value.Str?) ==> Lookup(t, path) == Lookup(v, path)
    ensures EndsInText(path) && Lookup(v, path).value.Str? ==>
      Lookup(t, path) == Some(Str(if |Lookup(v, path).value.s| > limit then Lookup(v, path).value.s[..limit] else Lookup(v, path).value.s))
    decreases |path|
  {
    if path != [] {
      assert path[0] in path && forall step | step in path[1..] :: step in path;
      match path[0]
      case Item(index) => TrimmedAt(v.items[index], t.items[index], limit, path[1..]);
      case Field(name) =>
        if HoldsText(name, v.fields[name]) {
          assert path == [Field(name)];
        } else {
          TrimmedAt(v.fields[name], t.fields[name], limit, path[1..]);
        }
    }
  }

  /** Truncation changes no scalar but texts, at whatever depth, and cuts texts to the limit. */
  lemma TruncateKeeps(v: Json, limit: nat)
    ensures KeepsScalars(v, Truncate(v, limit)) && CutsTexts(v, Truncate(v, limit), limit)
  {
    TruncateTrims(v, limit);
    forall path | Field("truncated") !in path && Lookup(v, path).Some? && IsScalar(Lookup(v, path).value)
      ensures !(EndsInText(path) && Lookup(v, path).value.Str?) ==> Lookup(Truncate(v, limit), path) == Lookup(v, path)
      ensures EndsInText(path) && Lookup(v, path).value.Str? ==>
        Lookup(Truncate(v, limit), path)
          == Some(Str(if |Lookup(v, path).value.s| > limit then Lookup(v, path).value.s[..limit] else Lookup(v, path).value.s))
    {
      TrimmedAt(v, Truncate(v, limit), limit, path);
    }
  }

  /**
   Cutting twice is cutting once at the smaller limit. So a limit tried on the compact
   value gives what it would give on any less truncated version, and a failed attempt
   loses nothing as long as each attempt starts from the compact value.
   */
  lemma {:induction false} TruncateTwice(v: Json, a: nat, b: nat)
    ensures Truncate(Truncate(v, a), b) == Truncate(v, Min(a, b))
  {
    match v
    case Arr(items) =>
      forall i | 0 <= i < |items| ensures Truncate(Truncate(items[i], a), b) == Truncate(items[i], Min(a, b)) {
        TruncateTwice(items[i], a, b);
      }
    case Obj(fields) =>
      TruncateTwiceFields(fields, a, b);
      forall name | name in fields
        ensures CutField(name, CutField(name, fields[name], a), b) == CutField(name, fields[name], Min(a, b))
      {
        TruncateTwice(fields[name], a, b);
      }
      SameFields(fields, a, b);
    case _ =>
  }

  lemma SameFields(fields: map<string, Json>, a: nat, b: nat)
    requires forall name | name in fields ::
      CutField(name, CutField(name, fields[name], a), b) == CutField(name, fields[name], Min(a, b))
    requires HasLongText(fields, a) || HasLongText(Truncate(Obj(fields), a).fields, b) <==> HasLongText(fields, Min(a, b))
    ensures Truncate(Truncate(Obj(fields), a), b) == Truncate(Obj(fields), Min(a, b))
  {
    hide HasLongText, IsContent;
    var first := Truncate(Obj(fields), a).fields;
    var twice, once := Truncate(Obj(first), b).fields, Truncate(Obj(fields), Min(a, b)).fields;
    CutObject(fields, a);
    CutObject(first, b);
    CutObject(fields, Min(a, b));
    assert twice.Keys == once.Keys;
    forall name | name in once ensures twice[name] == once[name] {
      if name == "truncated" && HasLongText(fields, a) {
        assert first[name] == Bool(true) && CutField(name, Bool(true), b) == Bool(true);
      } else if name in fields {
        assert first[name] == CutField(name, fields[name], a);
      }
    }
    assert twice == once;
  }

  lemma TruncateTwiceFields(fields: map<string, Json>, a: nat, b: nat)
    ensures HasLongText(fields, a) || HasLongText(Truncate(Obj(fields), a).fields, b) <==> HasLongText(fields, Min(a, b))
  {
    var cut := Truncate(Obj(fields), a).fields;
    CutObject(fields, a);
    if HasLongText(fields, Min(a, b)) && !HasLongText(fields, a) {
      var name :| name in fields && IsLongText(name, fields[name], Min(a, b));
      assert cut[name] == CutField(name, fields[name], a) == fields[name];
    }
    if HasLongText(cut, b) {
      var name :| name in cut && IsLongText(name, cut[name], b);
      ContentIsNotFlag(name);
      CutNotLonger(name, fields[name], a);
    }
  }

  lemma ContentIsNotFlag(name: string)
    ensures IsContent(name) ==> name != "truncated"
  {
  }

  lemma CutNotLonger(name: string, value: Json, limit: nat)
    requires CutField(name, value, limit).Str? && IsContent(name)
    ensures value.Str? && |CutField(name, value, limit).s| == Min(|value.s|, limit)
  {
  }

  // Compaction

  function Get(fields: map<string, Json>, name: string): Json {
    if name in fields then fields[name] else Null
  }

  predicate IsAnswer(item: Json) {
    item.Obj? && Get(item.fields, "type") == Str("agentMessage")
  }

  /** The items kept of a turn: its last agent message, if any. */
  function KeptItems(turn: map<string, Json>): seq<Json> {
    var items := Get(turn, "items");
    if items.Arr? then LastAnswer(items.items) else []
  }

  function LastAnswer(items: seq<Json>): seq<Json> {
    if items == [] then []
    else if IsAnswer(items[|items| - 1]) then [items[|items| - 1]]
    else LastAnswer(items[..|items| - 1])
  }

  /** The named fields, an absent one as null. */
  function Picked(fields: map<string, Json>, names: set<string>): map<string, Json> {
    map name | name in names :: Get(fields, name)
  }

  function CompactTurnError(raw: Json): Json {
    if raw.Obj? then Obj(Picked(raw.fields, {"message"})) else Null
  }

  /** The latest turn of a poll. */
  function CompactLatest(turn: Json): Json {
    if !turn.Obj? then Null
    else Obj(Picked(turn.fields, {"id", "status"})["error" := CompactTurnError(Get(turn.fields, "error"))])
  }

  function CompactTurn(turn: Json): Json {
    if !turn.Obj? then turn
    else Obj(CompactLatest(turn).fields["items" := Arr(KeptItems(turn.fields))]["truncated" := Bool(true)])
  }

  function CompactPoll(poll: Json): Json {
    if !poll.Obj? then poll
    else
      var kept := Picked(poll.fields, {"schemaVersion", "thread", "cursor", "changed", "latestAssistantMessage"});
      Obj(kept["latestTurn" := CompactLatest(Get(poll.fields, "latestTurn"))]["truncated" := Bool(true)])
  }

  function CompactThread(thread: Json): Json {
    if !thread.Obj? then thread
    else Obj(Picked(thread.fields, {"id", "kind", "title", "summary", "status"})["truncated" := Bool(true)])
  }

  /** What becomes of an entry of the named list. */
  function CompactedEntry(list: string): Json -> Json {
    if list == "turns" then CompactTurn else if list == "polls" then CompactPoll else CompactThread
  }

  function MapJson(items: seq<Json>, f: Json -> Json): (r: seq<Json>)
    ensures |r| == |items| && forall i :: 0 <= i < |items| ==> r[i] == f(items[i])
  {
    seq(|items|, i requires 0 <= i < |items| => f(items[i]))
  }

  /** `dynamicCompactResponseMetadata`, on the fields of the response. */
  function Compact(value: map<string, Json>): map<string, Json> {
    if Get(value, "turns").Arr? then
      var compacted := value["turns" := Arr(MapJson(value["turns"].items, CompactTurn))];
      var thread := Get(value, "thread");
      if !thread.Obj? then compacted
      else compacted["thread" := Obj(Picked(thread.fields, {"id", "status"}))]
    else if Get(value, "polls").Arr? then
      value["polls" := Arr(MapJson(value["polls"].items, CompactPoll))]
    else if Get(value, "threads").Arr? then
      value["threads" := Arr(MapJson(value["threads"].items, CompactThread))]
    else value
  }

  /** An object with the type of agent messages. */
  predicate IsMessage(item: Json) {
    item.Obj? && "type" in item.fields && item.fields["type"] == Str("agentMessage")
  }

  ghost predicate IsLastAnswer(items: seq<Json>, i: nat)
    requires i < |items|
  {
    IsMessage(items[i]) && forall j :: i < j < |items| ==> !IsMessage(items[j])
  }

  /** The kept item of a turn is its last agent message: none follows it, and none is lost. */
  lemma {:induction false} LastAnswerIsLast(items: seq<Json>)
    ensures LastAnswer(items) == [] <==> forall i :: 0 <= i < |items| ==> !IsMessage(items[i])
    ensures LastAnswer(items) != [] ==>
      exists i :: 0 <= i < |items| && LastAnswer(items) == [items[i]] && IsLastAnswer(items, i)
  {
    if items != [] && !IsAnswer(items[|items| - 1]) {
      var front := items[..|items| - 1];
      LastAnswerIsLast(front);
      if LastAnswer(items) != [] {
        var i :| 0 <= i < |front| && LastAnswer(front) == [front[i]] && IsLastAnswer(front, i);
        assert IsLastAnswer(items, i);
      }
    } else if items != [] {
      assert IsLastAnswer(items, |items| - 1);
    }
  }

  /** The items of a turn summary (`dynamicTurnSummary`), each summarised already: newest first. */
  method SummaryItems(items: seq<Json>) returns (summary: seq<Json>)
    ensures summary == ReverseSeq(items)
  {
    summary := [];
    var index := |items|;
    while index > 0
      invariant 0 <= index <= |items| && |summary| == |items| - index
      invariant forall k :: 0 <= k < |summary| ==> summary[k] == items[|items| - 1 - k]
    {
      index := index - 1;
      summary := summary + [items[index]];
    }
  }

  ghost predicate IsFirstAnswer(items: seq<Json>, i: nat)
    requires i < |items|
  {
    IsMessage(items[i]) && forall j :: 0 <= j < i ==> !IsMessage(items[j])
  }

  /**
   Summaries list items newest first while compaction keeps the last one listed. So of a
   turn with several agent messages the oldest is kept, not the latest.
   */
  lemma SummaryKeepsOldest(items: seq<Json>, i: nat)
    requires i < |items| && IsFirstAnswer(items, i)
    ensures LastAnswer(ReverseSeq(items)) == [items[i]]
  {
    var summary := ReverseSeq(items);
    LastAnswerIsLast(summary);
    var at := |items| - 1 - i;
    assert summary[at] == items[i];
    var k :| 0 <= k < |summary| && LastAnswer(summary) == [summary[k]] && IsLastAnswer(summary, k);
    assert IsMessage(items[|items| - 1 - k]);
    assert k == at;
  }

  /** Of different items, the summary keeps the latest agent message iff there is at most one. */
  lemma SummaryKeepsLatestIff(items: seq<Json>)
    requires forall i, j :: 0 <= i < j < |items| ==> items[i] != items[j]
    ensures LastAnswer(ReverseSeq(items)) == LastAnswer(items) <==>
      forall i, j :: 0 <= i < |items| && 0 <= j < |items| && IsMessage(items[i]) && IsMessage(items[j]) ==> i == j
  {
    LastAnswerIsLast(items);
    LastAnswerIsLast(ReverseSeq(items));
    if LastAnswer(items) != [] {
      var last :| 0 <= last < |items| && LastAnswer(items) == [items[last]] && IsLastAnswer(items, last);
      var first := FirstAnswer(items, last);
      SummaryKeepsOldest(items, first);
    } else {
      assert forall k :: 0 <= k < |items| ==> ReverseSeq(items)[k] == items[|items| - 1 - k];
    }
  }

  lemma FirstAnswer(items: seq<Json>, i: nat) returns (first: nat)
    requires i < |items| && IsMessage(items[i])
    ensures first <= i && IsFirstAnswer(items, first)
  {
    first := 0;
    while !IsMessage(items[first])
      invariant first <= i && forall j :: 0 <= j < first ==> !IsMessage(items[j])
      decreases i - first
    {
      first := first + 1;
    }
  }

  /** An entry that is an object keeps the named fields, an absent one as null; others are untouched. */
  ghost predicate Keeps(before: Json, after: Json, names: set<string>) {
    if !before.Obj? then after == before
    else after.Obj? && forall name | name in names :: name in after.fields && after.fields[name] == if name in before.fields then before.fields[name] else Null
  }

  /** An error keeps its message; anything that is no object becomes null. */
  ghost predicate KeepsError(before: Json, after: Json) {
    if before.Obj? then Keeps(before, after, {"message"}) else after == Null
  }

  /** The latest turn of a poll keeps id, status and error; anything that is no object becomes null. */
  ghost predicate KeepsTurn(before: Json, after: Json) {
    if before.Obj? then
      Keeps(before, after, {"id", "status"}) && KeepsError(Get(before.fields, "error"), Get(after.fields, "error"))
    else after == Null
  }

  /** What an entry of a list keeps: its named fields, and what is nested in them. */
  ghost predicate KeepsEntry(list: string, before: Json, after: Json) {
    && Keeps(before, after, KeptNames(list))
    && (before.Obj? ==> Get(after.fields, "truncated") == Bool(true))
    && (before.Obj? && list == "turns" ==> KeepsError(Get(before.fields, "error"), Get(after.fields, "error")))
    && (before.Obj? && list == "polls" ==> KeepsTurn(Get(before.fields, "latestTurn"), Get(after.fields, "latestTurn")))
  }

  /** The fields that entries of each list keep. */
  function KeptNames(list: string): set<string> {
    if list == "turns" then {"id", "status"}
    else if list == "polls" then {"schemaVersion", "thread", "cursor", "changed", "latestAssistantMessage"}
    else {"id", "kind", "title", "summary", "status"}
  }

  lemma CompactTurnKeeps(turn: Json)
    ensures KeepsEntry("turns", turn, CompactTurn(turn))
    ensures turn.Obj? && Get(turn.fields, "items").Arr? ==>
      var items := turn.fields["items"].items; var kept := Get(CompactTurn(turn).fields, "items");
      if forall i :: 0 <= i < |items| ==> !IsMessage(items[i]) then kept == Arr([])
      else exists i :: 0 <= i < |items| && kept == Arr([items[i]]) && IsLastAnswer(items, i)
  {
    if turn.Obj? && Get(turn.fields, "items").Arr? {
      LastAnswerIsLast(turn.fields["items"].items);
    }
  }

  lemma CompactLatestKeeps(turn: Json)
    ensures KeepsTurn(turn, CompactLatest(turn))
  {
  }

  lemma CompactPollKeeps(poll: Json)
    ensures KeepsEntry("polls", poll, CompactPoll(poll))
  {
    hide KeepsTurn, CompactLatest, KeepsError;
    if poll.Obj? { CompactLatestKeeps(Get(poll.fields, "latestTurn")); }
  }

  lemma CompactThreadKeeps(thread: Json)
    ensures KeepsEntry("threads", thread, CompactThread(thread))
  {
  }

  /** Which list compaction works on. */
  function CompactedList(value: map<string, Json>): string {
    if Get(value, "turns").Arr? then "turns" else if Get(value, "polls").Arr? then "polls" else "threads"
  }

  /**
   Compaction keeps every list length, what identifies the entries, and all other
   top-level fields, the server's pagination cursor among them.
   */
  lemma CompactKeeps(value: map<string, Json>)
    ensures var c, list := Compact(value), CompactedList(value);
      && c.Keys == value.Keys
      && (forall name | name in value && name != list && !(list == "turns" && name == "thread") :: c[name] == value[name])
      && (list == "turns" && "thread" in value ==> Keeps(value["thread"], c["thread"], {"id", "status"}))
      && (Get(value, list).Arr? ==>
            && c[list].Arr? && |c[list].items| == |value[list].items|
            && forall i :: 0 <= i < |value[list].items| ==> KeepsEntry(list, value[list].items[i], c[list].items[i]))
  {
    hide KeepsEntry;
    forall e
      ensures KeepsEntry("turns", e, CompactTurn(e)) && KeepsEntry("polls", e, CompactPoll(e))
        && KeepsEntry("threads", e, CompactThread(e))
    {
      CompactTurnKeeps(e);
      CompactPollKeeps(e);
      CompactThreadKeeps(e);
    }
  }

  // The search for a limit

  function Compacted(value: map<string, Json>): Json {
    Obj(Compact(value["truncated" := Bool(true)]))
  }

  lemma CompactFlagged(value: map<string, Json>)
    ensures Get(Compacted(value).fields, "truncated") == Bool(true)
  {
    CompactKeeps(value["truncated" := Bool(true)]);
  }

  predicate Fits(text: Option<seq<Byte>>) {
    text.Some? && |text.value| <= MAX_RESPONSE_BYTES
  }

  /** The text produced with a limit on every content field. */
  type Attempt = nat -> Option<seq<Byte>>

  /** Attempts at smaller limits fit when an attempt at a larger one does. */
  ghost predicate DownwardClosed(attempt: Attempt) {
    forall a: nat, b: nat | a <= b && Fits(attempt(b)) :: Fits(attempt(a))
  }

  /** `limit` is a limit the search may settle on: it fits and the next one does not. */
  ghost predicate IsChosen(attempt: Attempt, limit: nat) {
    limit <= MAX_RESPONSE_BYTES && Fits(attempt(limit)) && (limit < MAX_RESPONSE_BYTES ==> !Fits(attempt(limit + 1)))
  }

  /** Whenever fitting is downward closed, the chosen limit is the largest that fits. */
  lemma ChosenIsLargest(attempt: Attempt, limit: nat)
    requires DownwardClosed(attempt) && IsChosen(attempt, limit)
    ensures forall n: nat | n <= MAX_RESPONSE_BYTES :: Fits(attempt(n)) <==> n <= limit
  {
  }

  ghost predicate NonEmptyTexts(encode: Encoder) {
    forall v :: encode(v).Some? ==> encode(v).value != []
  }

  /** What the search tries: a truncated copy of the compacted value. */
  function Truncated(compact: Json, encode: Encoder): Attempt {
    (limit: nat) => encode(Truncate(compact, limit))
  }
}
