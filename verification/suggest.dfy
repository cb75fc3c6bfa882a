/**
 * The `suggest_food` action: resolve what a parent typed against the food
 * dictionary first and ask the classifier only on a miss; a valid answer
 * from the classifier is written back so that the same text resolves
 * locally next time, unless a food of the corrected name already exists:
 * then `saveFood` refuses, nothing is written, and the same text reaches
 * the classifier again.
 *
 * The action is a pure function of the dictionary, the request's
 * `food_name`, the configured API key and the classifier's reply. The reply
 * is passed in even on the paths that never call the classifier; that it is
 * not consulted there is stated as the result not depending on it.
 */
module Suggest {
  import opened Wrappers
  import opened Text
  import opened FoodSearch
  import opened ClaudeReply

  /** The key the configuration template ships with: not a usable key. */
  const PlaceholderKey: string := "sk-ant-YOUR_KEY_HERE"

  /** The tolerance `suggest_food` passes to the resolver. */
  const SuggestTolerance: int := 2

  datatype Source = LocalDatabase | ClaudeApi

  /** The `suggestion` object of a successful response. */
  datatype Suggestion = Suggestion(
    correctedName: Option<string>,
    emoji: string,
    category: string,
    confidence: Option<string>,
    source: Source)

  /** Why the action failed. */
  datatype Failure =
    | FoodNameRequired   // 400 "Food name required"
    | ApiNotConfigured   // 500 "Claude API not configured"
    | ApiStatus(code: int) // 500 "Claude API error (status <code>)"
    | InvalidResponse    // 500 "Invalid response"
    | ParseFailed        // 500 "Failed to parse suggestion"

  datatype Response = Suggested(suggestion: Suggestion) | Failed(failure: Failure)

  /** The HTTP status a failure is reported with. */
  function StatusOf(f: Failure): (code: int)
    ensures code == 400 <==> f == FoodNameRequired
    ensures code == 400 || code == 500
  {
    if f == FoodNameRequired then 400 else 500
  }

  /** A key is usable when it is defined and is not the template's placeholder. */
  predicate KeyConfigured(apiKey: Option<string>) {
    apiKey.Some? && apiKey.value != PlaceholderKey
  }

  /** The request names a food: present, and at least two characters once
      trimmed (an empty or `"0"` name is falsy in PHP and also too short). */
  predicate NameGiven(foodName: Option<string>) {
    foodName.Some? && |Trim(foodName.value)| >= MinTermLength
  }

  /** The answer for a local hit. */
  function FromLocal(m: LocalMatch): (s: Suggestion)
    ensures s.source == LocalDatabase && s.correctedName == Some(m.entry.name)
    ensures s.emoji == m.entry.emoji && s.category == m.entry.category
    ensures s.confidence == Some("medium") <==> m.matchedVia == Some(FuzzyMatch)
    ensures s.confidence == Some("high") <==> m.matchedVia != Some(FuzzyMatch)
  {
    Suggestion(Some(m.entry.name), m.entry.emoji, m.entry.category,
               Some(if m.matchedVia == Some(FuzzyMatch) then "medium" else "high"),
               LocalDatabase)
  }

  /** The alternative names written back with a classifier answer: the
      lower-cased input as typed and the lower-cased corrected name. */
  function WriteBackAltNames(raw: string, corrected: string): string {
    Lower(raw) + "," + Lower(corrected)
  }

  /** The dictionary after writing back a classifier answer: `saveFood`
      with the corrected name, whose refusal is ignored. Without a corrected
      name the insert cannot succeed and nothing is written. */
  function WriteBack(d: FoodDictionary, raw: string, f: SuggestionFields): (d': FoodDictionary)
    requires f.emoji.Some? && f.category.Some?
    ensures f.correctedName.None? ==> d' == d
    ensures f.correctedName.Some? ==>
      d' == SaveFood(d, f.correctedName.value, f.emoji.value, f.category.value,
                     Some(WriteBackAltNames(raw, f.correctedName.value))).1
  {
    match f.correctedName
    case None => d
    case Some(c) => SaveFood(d, c, f.emoji.value, f.category.value, Some(WriteBackAltNames(raw, c))).1
  }

  /**
   * `suggest_food`. The response and the dictionary afterwards.
   */
  function SuggestFood(d: FoodDictionary, foodName: Option<string>, apiKey: Option<string>, reply: ApiReply)
    : (r: (Response, FoodDictionary))
    // A missing or too short name is refused before anything else.
    ensures !NameGiven(foodName) ==> r == (Failed(FoodNameRequired), d)
    // A local hit is answered from the dictionary, which stays as it is.
    ensures NameGiven(foodName) && SearchFood(d, foodName.value, SuggestTolerance).Some? ==>
      r == (Suggested(FromLocal(SearchFood(d, foodName.value, SuggestTolerance).value)), d)
    // On a miss, each defect of the key or the reply is a failure and nothing is written.
    ensures NameGiven(foodName) && SearchFood(d, foodName.value, SuggestTolerance).None? ==>
      (!KeyConfigured(apiKey) ==> r == (Failed(ApiNotConfigured), d)) &&
      (KeyConfigured(apiKey) && reply.httpCode != HttpOk ==> r == (Failed(ApiStatus(reply.httpCode)), d)) &&
      (KeyConfigured(apiKey) && reply.httpCode == HttpOk && reply.content.None? ==>
         r == (Failed(InvalidResponse), d))
    ensures (NameGiven(foodName) && SearchFood(d, foodName.value, SuggestTolerance).None? &&
             KeyConfigured(apiKey) && reply.httpCode == HttpOk && reply.content.Some?) ==>
        var f := reply.content.value.decoded;
        (f.None? || f.value.emoji.None? || f.value.category.None? ==> r == (Failed(ParseFailed), d)) &&
        (f.Some? && f.value.emoji.Some? && f.value.category.Some? ==>
           r.0 == Suggested(Suggestion(f.value.correctedName, f.value.emoji.value, f.value.category.value,
                                       f.value.confidence, ClaudeApi)) &&
           r.1 == WriteBack(d, foodName.value, f.value))
    // Every failure leaves the dictionary alone; only a classifier answer changes it.
    ensures r.0.Failed? ==> r.1 == d
    ensures r.1 != d ==> r.0.Suggested? && r.0.suggestion.source == ClaudeApi
    ensures Valid(d) ==> Valid(r.1)
  {
    if !NameGiven(foodName) then (Failed(FoodNameRequired), d)
    else
      var raw := foodName.value;
      match SearchFood(d, raw, SuggestTolerance)
      case Some(m) => (Suggested(FromLocal(m)), d)
      case None =>
        if !KeyConfigured(apiKey) then (Failed(ApiNotConfigured), d)
        else if reply.httpCode != HttpOk then (Failed(ApiStatus(reply.httpCode)), d)
        else if reply.content.None? then (Failed(InvalidResponse), d)
        else
          var f := reply.content.value.decoded;
          if f.None? || f.value.emoji.None? || f.value.category.None? then (Failed(ParseFailed), d)
          else
            var s := Suggestion(f.value.correctedName, f.value.emoji.value, f.value.category.value,
                                f.value.confidence, ClaudeApi);
            (Suggested(s), WriteBack(d, raw, f.value))
  }

  /** A refused request and a local hit are decided without the classifier:
      neither the key nor the reply changes the outcome. */
  lemma LocalOutcomeIgnoresClassifier(d: FoodDictionary, foodName: Option<string>,
                                      key1: Option<string>, reply1: ApiReply,
                                      key2: Option<string>, reply2: ApiReply)
    requires !NameGiven(foodName) || SearchFood(d, foodName.value, SuggestTolerance).Some?
    ensures SuggestFood(d, foodName, key1, reply1) == SuggestFood(d, foodName, key2, reply2)
  {
  }

  /** Any casing and padding of a stored name is answered from the
      dictionary with high confidence. */
  lemma SuggestKnownNameIsHigh(d: FoodDictionary, e: FoodEntry, raw: string, apiKey: Option<string>, reply: ApiReply)
    requires Valid(d) && e in d.entries
    requires |Trim(raw)| >= MinTermLength && SameName(Trim(raw), e.name)
    ensures SuggestFood(d, Some(raw), apiKey, reply) ==
      (Suggested(Suggestion(Some(e.name), e.emoji, e.category, Some("high"), LocalDatabase)), d)
  {
    SearchFindsAnyCasing(d, e, raw, SuggestTolerance);
  }

  /** The written-back row's alternative names contain the trimmed input,
      ignoring case. */
  lemma AltNamesHoldInput(raw: string, corrected: string)
    ensures Contains(Lower(WriteBackAltNames(raw, corrected)), Lower(Trim(raw)))
  {
    var alt := WriteBackAltNames(raw, corrected);
    var tail := [','] + Lower(corrected);
    assert alt == Lower(raw) + tail;
    LowerConcat(Lower(raw), tail);
    LowerConcat([','], Lower(corrected));
    LowerIdempotent(raw);
    LowerIdempotent(corrected);
    assert Lower([',']) == [','];
    assert Lower(alt) == alt;
    LowerContainsLowerTrim(raw);
    ContainsExtend(Lower(raw), tail, Lower(Trim(raw)));
  }

  /** Once a classifier answer has been written back, asking again with the
      same text is answered from the dictionary, whatever the key or reply. */
  lemma WrittenBackResolvesLocally(d: FoodDictionary, raw: string, apiKey: Option<string>, reply: ApiReply,
                                   key2: Option<string>, reply2: ApiReply)
    requires SuggestFood(d, Some(raw), apiKey, reply).1 != d
    ensures SearchFood(SuggestFood(d, Some(raw), apiKey, reply).1, raw, SuggestTolerance).Some?
    ensures var d' := SuggestFood(d, Some(raw), apiKey, reply).1;
      var r2 := SuggestFood(d', Some(raw), key2, reply2);
      r2.0.Suggested? && r2.0.suggestion.source == LocalDatabase && r2.1 == d'
  {
    var d' := SuggestFood(d, Some(raw), apiKey, reply).1;
    var f := reply.content.value.decoded.value;
    var c := f.correctedName.value;
    var alt := WriteBackAltNames(raw, c);
    var saved := SaveFood(d, c, f.emoji.value, f.category.value, Some(alt));
    assert d' == saved.1;
    var e := FoodEntry(saved.0.id, c, f.emoji.value, f.category.value, Some(alt));
    assert d'.entries == d.entries + [e];
    AltNamesHoldInput(raw, c);
    assert Hits(ByAlternate(Trim(raw)), d'.entries[|d.entries|]);
  }

  /** When the dictionary already holds the corrected name, ignoring case,
      the write-back is refused: the dictionary stays as it was and the same
      text misses locally again, so the next request asks the classifier
      once more. */
  lemma ExistingNameNotWrittenBack(d: FoodDictionary, raw: string, apiKey: Option<string>, reply: ApiReply)
    requires reply.content.Some? && reply.content.value.decoded.Some?
    requires reply.content.value.decoded.value.correctedName.Some?
    requires AnyHit(d.entries, ByName(reply.content.value.decoded.value.correctedName.value))
    requires SuggestFood(d, Some(raw), apiKey, reply).0.Suggested?
    requires SuggestFood(d, Some(raw), apiKey, reply).0.suggestion.source == ClaudeApi
    ensures SuggestFood(d, Some(raw), apiKey, reply).1 == d
    ensures SearchFood(SuggestFood(d, Some(raw), apiKey, reply).1, raw, SuggestTolerance).None?
  {
  }
}
