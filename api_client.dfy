/**
 * api_client.py: what happens to the answers of the Gemini model and of the
 * optional custom classifier once they arrive, and how the final label is
 * chosen. The HTTP calls and `json.loads` are outside the model: their
 * outcomes are inputs (`GeminiReply`, `CustomReply`, and `parse`, the JSON
 * decoder as a function).
 */
module ApiClient {
  import opened Wrappers
  import opened Text
  import opened Labels
  import Detector

  const ValidCategories: seq<string> := ["Not Cyberbullying", "Ethnicity/Race", "Gender/Sexual", "Religion", "Other"]

  /** A decoded JSON value, with the shapes the code tells apart. */
  datatype Json = JNull | JStr(s: string) | JObject(fields: map<string, Json>) | JOther

  /** The outcome of `json.loads`: it raises on malformed text. */
  datatype Parse = Malformed | Parsed(doc: Json)

  // ------------------------------------------------------------ normalisation

  /**
   * Maps a category the model invented onto the valid ones: a valid category
   * is kept; otherwise the lowercased text is tested for race/ethnic, then
   * gender/sexual, then religion, then not/safe, in that order, and anything
   * else is "Other".
   */
  function NormalizeCategory(category: string): (r: string)
    ensures r in ValidCategories
    ensures category in ValidCategories ==> r == category
  {
    if category in ValidCategories then category
    else
      var c := Lower(category);
      if Contains(c, "race") || Contains(c, "ethnic") then "Ethnicity/Race"
      else if Contains(c, "gender") || Contains(c, "sexual") then "Gender/Sexual"
      else if Contains(c, "religion") then "Religion"
      else if Contains(c, "not") || Contains(c, "safe") then "Not Cyberbullying"
      else "Other"
  }

  lemma NormalizeIdempotent(category: string)
    ensures NormalizeCategory(NormalizeCategory(category)) == NormalizeCategory(category)
  {
  }

  /**
   * An invented category is mapped by the first keyword group it mentions,
   * in the order race/ethnic, gender/sexual, religion, not/safe.
   */
  lemma KeywordOrder(category: string)
    requires category !in ValidCategories
    ensures var c := Lower(category);
            var race := Contains(c, "race") || Contains(c, "ethnic");
            var gender := Contains(c, "gender") || Contains(c, "sexual");
            var religion := Contains(c, "religion");
            var negated := Contains(c, "not") || Contains(c, "safe");
            && (race ==> NormalizeCategory(category) == "Ethnicity/Race")
            && (!race && gender ==> NormalizeCategory(category) == "Gender/Sexual")
            && (!race && !gender && religion ==> NormalizeCategory(category) == "Religion")
            && (!race && !gender && !religion && negated ==> NormalizeCategory(category) == NotCyberbullying)
  {
  }

  /** The tests run in order, so a negated race category still counts as race. */
  lemma NegatedRaceIsRace()
    ensures NormalizeCategory("not race") == "Ethnicity/Race"
  {
    assert Lower("not race") == "not race";
    assert "not race"[4..4 + |"race"|] == "race";
    ContainsAtOffset("not race", 4, "race");
  }

  /** A category that is not valid and mentions none of the known words is "Other". */
  lemma NoMentionIsOther(category: string)
    requires category !in ValidCategories
    requires var c := Lower(category);
             !Contains(c, "race") && !Contains(c, "ethnic") && !Contains(c, "gender") && !Contains(c, "sexual")
             && !Contains(c, "religion") && !Contains(c, "not") && !Contains(c, "safe")
    ensures NormalizeCategory(category) == "Other"
  {
  }

  // ------------------------------------------------------------ fence removal

  /** `s.replace(pat, "")`: removes the leftmost non-overlapping occurrences of `pat`. */
  function RemoveAll(s: string, pat: string): (r: string)
    requires pat != []
    ensures |r| <= |s|
    ensures r == s <==> !Contains(s, pat)
    decreases |s|
  {
    if |s| < |pat| then s
    else if s[..|pat|] == pat then RemoveAll(s[|pat|..], pat)
    else
      assert s == [s[0]] + s[1..];
      [s[0]] + RemoveAll(s[1..], pat)
  }

  /** Removal only takes characters out: what is left is among the text's characters. */
  lemma {:induction false} RemoveAllKeepsChars(s: string, pat: string)
    requires pat != []
    ensures multiset(RemoveAll(s, pat)) <= multiset(s)
    decreases |s|
  {
    if |s| < |pat| {
    } else if s[..|pat|] == pat {
      RemoveAllKeepsChars(s[|pat|..], pat);
      assert s == s[..|pat|] + s[|pat|..];
    } else {
      RemoveAllKeepsChars(s[1..], pat);
      assert s == [s[0]] + s[1..];
    }
  }

  /** The number of copies of `pat` that `RemoveAll` takes out of `s`. */
  function CopiesRemoved(s: string, pat: string): nat
    requires pat != []
    decreases |s|
  {
    if |s| < |pat| then 0
    else if s[..|pat|] == pat then 1 + CopiesRemoved(s[|pat|..], pat)
    else CopiesRemoved(s[1..], pat)
  }

  lemma MulSucc(k: nat, n: nat)
    ensures (k + 1) * n == k * n + n
  {
  }

  /** Removal takes out whole copies of `pat`: the text shrinks by exactly the pattern's length for each copy removed. */
  lemma {:induction false} RemoveAllTakesCopies(s: string, pat: string)
    requires pat != []
    ensures |s| == |RemoveAll(s, pat)| + CopiesRemoved(s, pat) * |pat|
    decreases |s|
  {
    if |s| < |pat| {
    } else if s[..|pat|] == pat {
      var t := s[|pat|..];
      RemoveAllTakesCopies(t, pat);
      var k, n := CopiesRemoved(t, pat), |pat|;
      assert RemoveAll(s, pat) == RemoveAll(t, pat);
      assert CopiesRemoved(s, pat) == k + 1;
      assert |s| == n + |t|;
      MulSucc(k, n);
    } else {
      RemoveAllTakesCopies(s[1..], pat);
      assert RemoveAll(s, pat) == [s[0]] + RemoveAll(s[1..], pat);
      assert CopiesRemoved(s, pat) == CopiesRemoved(s[1..], pat);
    }
  }

  const Fence := "```"

  /** No three backticks in a row anywhere in `x`. */
  predicate NoFence(x: string) {
    forall i :: 0 <= i < |x| - 2 ==> !FenceAt(x, i)
  }

  predicate FenceAt(x: string, i: nat)
    requires i + 2 < |x|
  {
    x[i] == '`' && x[i + 1] == '`' && x[i + 2] == '`'
  }

  /** Removing fences from a text that does not start with a backtick keeps its first character. */
  lemma RemoveFenceKeepsHead(s: string)
    requires s != [] && s[0] != '`'
    ensures RemoveAll(s, Fence) != [] && RemoveAll(s, Fence)[0] == s[0]
  {
  }

  /** After every fence is removed, no three backticks in a row are left, even where removal brings backticks together. */
  lemma {:induction false} RemoveFenceLeavesNone(s: string)
    ensures NoFence(RemoveAll(s, Fence))
    decreases |s|
  {
    if |s| < 3 {
    } else if s[..3] == Fence {
      RemoveFenceLeavesNone(s[3..]);
    } else {
      RemoveFenceLeavesNone(s[1..]);
      var rest := RemoveAll(s[1..], Fence);
      var r := RemoveAll(s, Fence);
      assert r == [s[0]] + rest;
      if s[0] == '`' && |rest| >= 2 {
        if s[1] != '`' {
          RemoveFenceKeepsHead(s[1..]);
        } else {
          assert s[2] != '`';
          if |s[1..]| >= 3 {
            assert s[1..][..3] != Fence;
            assert rest == [s[1]] + RemoveAll(s[2..], Fence);
            assert s[2..] == s[1..][1..];
            RemoveFenceKeepsHead(s[2..]);
          }
        }
      }
      forall i | 0 <= i < |r| - 2 ensures !FenceAt(r, i) {
        if i > 0 {
          assert FenceAt(r, i) == FenceAt(rest, i - 1);
          assert r[i] == rest[i - 1] && r[i + 1] == rest[i] && r[i + 2] == rest[i + 1];
        }
      }
    }
  }

  /** A text with no three backticks in a row holds no fence. */
  lemma {:induction false} NoFenceNotContained(x: string)
    requires NoFence(x)
    ensures !Contains(x, Fence)
    decreases |x|
  {
    if |x| >= 3 {
      assert !FenceAt(x, 0);
      assert x[..3] != Fence;
      NoFenceSlice(x, 1, |x|);
      assert x[1..|x|] == x[1..];
      NoFenceNotContained(x[1..]);
    }
  }

  /** A slice of a text with no three backticks in a row has none either. */
  lemma NoFenceSlice(x: string, a: nat, b: nat)
    requires a <= b <= |x| && NoFence(x)
    ensures NoFence(x[a..b])
  {
    var y := x[a..b];
    forall i | 0 <= i < |y| - 2 ensures !FenceAt(y, i) {
      assert y[i] == x[a + i] && y[i + 1] == x[a + i + 1] && y[i + 2] == x[a + i + 2];
      assert !FenceAt(x, a + i);
    }
  }

  /** Stripping keeps a text free of three backticks in a row. */
  lemma StripKeepsNoFence(x: string)
    requires NoFence(x)
    ensures NoFence(Strip(x))
  {
    var r := TrimBy(x, IsSpace);
    var off := TrimOffset(x, IsSpace);
    NoFenceSlice(x, off, off + |r|);
  }

  /** The Gemini answer text as it is parsed: stripped, with every "```json" and then every "```" removed, and stripped again. */
  function CleanResponseText(raw: string): (r: string)
    ensures !Contains(r, Fence)
  {
    var once := RemoveAll(Strip(raw), "```json");
    var twice := RemoveAll(once, Fence);
    RemoveFenceLeavesNone(once);
    StripKeepsNoFence(twice);
    NoFenceNotContained(Strip(twice));
    Strip(twice)
  }

  // ------------------------------------------------------------ plain-text fallback

  /** The index of the first category, in list order, whose lowercased name occurs in the lowercased text. */
  function FirstMentioned(text: string, cats: seq<string>): (r: Option<nat>)
    ensures r.Some? ==> r.value < |cats| && Contains(Lower(text), Lower(cats[r.value]))
    ensures r.Some? ==> forall j :: 0 <= j < r.value ==> !Contains(Lower(text), Lower(cats[j]))
    ensures r.None? ==> forall j :: 0 <= j < |cats| ==> !Contains(Lower(text), Lower(cats[j]))
  {
    if cats == [] then None
    else if Contains(Lower(text), Lower(cats[0])) then Some(0)
    else match FirstMentioned(text, cats[1..])
      case None => None
      case Some(i) => Some(i + 1)
  }

  /** The answer of `classify_with_gemini`: a category and the explanation value. */
  datatype GeminiAnswer = GeminiAnswer(category: string, explanation: Json)

  /** When the answer is not JSON: the first category mentioned in it, with the whole text as the explanation, or nothing. */
  function PlainTextCategory(text: string): (r: Option<GeminiAnswer>)
    ensures r.Some? ==> r.value.category in ValidCategories && r.value.explanation == JStr(text)
    ensures r.Some? ==> Contains(Lower(text), Lower(r.value.category))
    ensures r.None? <==> forall j :: 0 <= j < |ValidCategories| ==> !Contains(Lower(text), Lower(ValidCategories[j]))
  {
    match FirstMentioned(text, ValidCategories)
    case None => None
    case Some(i) => Some(GeminiAnswer(ValidCategories[i], JStr(text)))
  }

  // ------------------------------------------------------------ Gemini

  /** What the Gemini request produced: no key configured, a failed request, a reply without text parts, or the text of the first part. */
  datatype GeminiReply = KeyMissing | CallFailed | NoParts | Answered(text: string)

  /**
   * The decoded answer: a JSON object gives its `category` (default "Not
   * Cyberbullying") normalised, and its `explanation` (default ""); a
   * decoded value that is not an object, or a category that is not a
   * string, makes the code raise and gives nothing; text that is not JSON
   * falls back to `PlainTextCategory`.
   */
  function InterpretAnswer(cleaned: string, parsed: Parse): (r: Option<GeminiAnswer>)
    ensures r.Some? ==> r.value.category in ValidCategories
    ensures parsed.Malformed? ==> r == PlainTextCategory(cleaned)
    ensures parsed.Parsed? && parsed.doc.JObject? && "category" !in parsed.doc.fields ==>
              r.Some? && r.value.category == NotCyberbullying
    ensures parsed.Parsed? && parsed.doc.JObject? && "explanation" !in parsed.doc.fields && r.Some? ==>
              r.value.explanation == JStr("")
    ensures parsed.Parsed? && !parsed.doc.JObject? ==> r.None?
    ensures parsed.Parsed? && parsed.doc.JObject? && "category" in parsed.doc.fields ==>
              var fields := parsed.doc.fields;
              r == (if fields["category"].JStr?
                    then Some(GeminiAnswer(NormalizeCategory(fields["category"].s),
                                           if "explanation" in fields then fields["explanation"] else JStr("")))
                    else None)
  {
    match parsed
    case Malformed => PlainTextCategory(cleaned)
    case Parsed(doc) =>
      if !doc.JObject? then None
      else
        var category := if "category" in doc.fields then doc.fields["category"] else JStr(NotCyberbullying);
        var explanation := if "explanation" in doc.fields then doc.fields["explanation"] else JStr("");
        if category.JStr? then Some(GeminiAnswer(NormalizeCategory(category.s), explanation)) else None
  }

  /** A decoded object whose category is already valid is answered with that category and its explanation. */
  lemma ValidCategoryAnswerKept(cleaned: string, category: string, explanation: Json)
    requires category in ValidCategories
    ensures InterpretAnswer(cleaned, Parsed(JObject(map["category" := JStr(category), "explanation" := explanation])))
            == Some(GeminiAnswer(category, explanation))
  {
  }

  /**
   * `classify_with_gemini`: any failure gives nothing; a reply's text is
   * cleaned of fences, decoded and interpreted, and a category it gives is
   * always one of the valid five.
   */
  function ClassifyWithGemini(reply: GeminiReply, parse: string -> Parse): (r: Option<GeminiAnswer>)
    ensures r.Some? ==> reply.Answered? && r.value.category in ValidCategories
    ensures !reply.Answered? ==> r.None?
    ensures reply.Answered? ==>
              r == InterpretAnswer(CleanResponseText(reply.text), parse(CleanResponseText(reply.text)))
  {
    match reply
    case Answered(text) =>
      var cleaned := CleanResponseText(text);
      InterpretAnswer(cleaned, parse(cleaned))
    case _ => None
  }

  // ------------------------------------------------------------ custom classifier

  /** What the custom classifier request produced: no address configured, a failed request, or a body (and its decoding). */
  datatype CustomReply = NoUrl | CustomFailed | CustomBody(parsed: Parse, body: string)

  const ResponseKeys: seq<string> := ["category", "label", "prediction", "class"]

  /** The index of the first of `keys` present in `fields`. */
  function FirstKey(fields: map<string, Json>, keys: seq<string>): (r: Option<nat>)
    ensures r.Some? ==> r.value < |keys| && keys[r.value] in fields
    ensures r.Some? ==> forall j :: 0 <= j < r.value ==> keys[j] !in fields
    ensures r.None? ==> forall j :: 0 <= j < |keys| ==> keys[j] !in fields
  {
    if keys == [] then None
    else if keys[0] in fields then Some(0)
    else match FirstKey(fields, keys[1..])
      case None => None
      case Some(i) => Some(i + 1)
  }

  /** A JSON `null` returned by the code is Python's `None`. */
  function AsResult(v: Json): (r: Option<Json>)
    ensures r.None? <==> v.JNull?
  {
    if v.JNull? then None else Some(v)
  }

  /** Python truthiness of the Gemini category: present and non-empty. */
  predicate HasCategory(gemini: Option<GeminiAnswer>) {
    gemini.Some? && gemini.value.category != []
  }

  /** Every valid category is non-empty, so a Gemini answer always takes precedence. */
  lemma GeminiCategoryIsTruthy(gemini: Option<GeminiAnswer>)
    requires gemini.Some? && gemini.value.category in ValidCategories
    ensures HasCategory(gemini)
  {
    var c := gemini.value.category;
    var i :| 0 <= i < |ValidCategories| && ValidCategories[i] == c;
    assert |ValidCategories[i]| >= 5 by {
      assert |ValidCategories[0]| == 17 && |ValidCategories[1]| == 14 && |ValidCategories[2]| == 13;
      assert |ValidCategories[3]| == 8 && |ValidCategories[4]| == 5;
    }
  }

  /**
   * `classify_with_api`: a Gemini category wins; otherwise the custom
   * classifier's answer under the first of the keys category, label,
   * prediction, class; otherwise its stripped body when not empty.
   */
  function ClassifyWithApi(gemini: Option<GeminiAnswer>, custom: CustomReply): (r: Option<Json>)
    ensures HasCategory(gemini) ==> r == Some(JStr(gemini.value.category))
    ensures !HasCategory(gemini) && (custom.NoUrl? || custom.CustomFailed?) ==> r.None?
    ensures !HasCategory(gemini) && custom.CustomBody? && custom.parsed.Parsed? && custom.parsed.doc.JObject?
              && FirstKey(custom.parsed.doc.fields, ResponseKeys).Some? ==>
              r == AsResult(custom.parsed.doc.fields[ResponseKeys[FirstKey(custom.parsed.doc.fields, ResponseKeys).value]])
    ensures !HasCategory(gemini) && custom.CustomBody?
              && !(custom.parsed.Parsed? && custom.parsed.doc.JObject? && FirstKey(custom.parsed.doc.fields, ResponseKeys).Some?) ==>
              r == (if Strip(custom.body) != [] then Some(JStr(Strip(custom.body))) else None)
  {
    if HasCategory(gemini) then Some(JStr(gemini.value.category))
    else match custom
      case NoUrl => None
      case CustomFailed => None
      case CustomBody(parsed, body) =>
        var keyed := if parsed.Parsed? && parsed.doc.JObject? then FirstKey(parsed.doc.fields, ResponseKeys) else None;
        if keyed.Some? then AsResult(parsed.doc.fields[ResponseKeys[keyed.value]])
        else
          var textBody := Strip(body);
          if textBody != [] then Some(JStr(textBody)) else None
  }

  // ------------------------------------------------------------ final label

  /** The result of `get_detailed_classification`. */
  datatype Detailed = Detailed(localLabel: Option<string>, apiLabel: Option<string>, apiExplanation: Option<Json>,
                               finalLabel: string, verdict: Verdict)

  /** Python truthiness of an optional string: present and non-empty. */
  predicate Given(s: Option<string>) {
    s.Some? && s.value != []
  }

  /**
   * `get_detailed_classification`: `localLabel` is what the local model
   * predicted (`None` when it raised). The final label is the first given
   * of the Gemini category, the local label and "Not Cyberbullying".
   */
  function GetDetailedClassification(localLabel: Option<string>, gemini: Option<GeminiAnswer>): (d: Detailed)
    ensures d.localLabel == localLabel
    ensures d.apiLabel == (if gemini.Some? then Some(gemini.value.category) else None)
    ensures HasCategory(gemini) ==> d.finalLabel == gemini.value.category
    ensures !HasCategory(gemini) && Given(localLabel) ==> d.finalLabel == localLabel.value
    ensures !HasCategory(gemini) && !Given(localLabel) ==> d.finalLabel == NotCyberbullying
    ensures d.verdict == VerdictOf(d.finalLabel)
  {
    var apiLabel := if gemini.Some? then Some(gemini.value.category) else None;
    var apiExplanation := if gemini.Some? then Some(gemini.value.explanation) else None;
    var finalLabel := if Given(apiLabel) then apiLabel.value else if Given(localLabel) then localLabel.value else NotCyberbullying;
    Detailed(localLabel, apiLabel, apiExplanation, finalLabel, VerdictOf(finalLabel))
  }

  /** Fail-open: when both classifiers fail, the text is reported as not bullying. */
  lemma BothFailedMeansSafe()
    ensures GetDetailedClassification(None, None).verdict == Safe
    ensures GetDetailedClassification(None, None).finalLabel == NotCyberbullying
  {
  }

  /** With the local model's labels, the final label is always one of the valid categories. */
  lemma FinalLabelIsValid(localLabel: Option<string>, gemini: Option<GeminiAnswer>)
    requires localLabel.Some? ==> localLabel.value in Detector.ClassLabels
    requires gemini.Some? ==> gemini.value.category in ValidCategories
    ensures GetDetailedClassification(localLabel, gemini).finalLabel in ValidCategories
  {
  }
}
