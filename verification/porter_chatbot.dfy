/** The single-question handler of the Porter chatbot: emergency keywords first, then
    date/time questions, then a fuzzy FAQ lookup, then the LLM fallback.
    The LLM, the fuzzy scorer and the clock are parameters (`Env`). */
module PorterChatbot {
  import opened Wrappers
  import opened Text

  /** One FAQ question with its stored answer; the FAQ is a list of these in file order. */
  datatype FaqEntry = FaqEntry(question: string, answer: string)

  /** What an answer depends on besides the question and the language. */
  datatype Env = Env(
    faq: seq<FaqEntry>,
    ratio: (string, string) -> int,  // fuzzy similarity of two strings
    llm: string -> string,           // text the model generates for a prompt
    today: string,                   // today's date, formatted "%B %d, %Y"
    now: string)                     // the current time, formatted "%H:%M:%S"

  const DefaultThreshold := 80
  const EmergencyKeywords := ["help", "sahayata", "emergency", "fire", "injury"]

  // ---------------------------------------------------------------------------
  // FAQ lookup
  // ---------------------------------------------------------------------------

  /** The score of each FAQ entry: the ratio of the lowered question and the lowered entry. */
  function Scores(question: string, faq: seq<FaqEntry>, ratio: (string, string) -> int): (s: seq<int>)
    ensures |s| == |faq|
    ensures forall j :: 0 <= j < |faq| ==> s[j] == ratio(Lower(question), Lower(faq[j].question))
  {
    seq(|faq|, j requires 0 <= j < |faq| => ratio(Lower(question), Lower(faq[j].question)))
  }

  /** `best_score` and `best_match` of the lookup loop. */
  datatype Best = Best(score: int, answer: Option<string>)

  /** The lookup loop from entry `i` on, starting from `acc`: an entry replaces the best
      only when its score is strictly greater. */
  function Scan(faq: seq<FaqEntry>, scores: seq<int>, i: nat, acc: Best): (r: Best)
    requires |scores| == |faq| && i <= |faq|
    ensures acc.score <= r.score
    ensures r.score == acc.score ==> r == acc
    decreases |faq| - i
  {
    if i == |faq| then acc
    else Scan(faq, scores, i + 1, if scores[i] > acc.score then Best(scores[i], Some(faq[i].answer)) else acc)
  }

  /** `k` is the first index holding the maximum score. */
  ghost predicate FirstBest(scores: seq<int>, k: int) {
    && 0 <= k < |scores|
    && (forall j :: 0 <= j < |scores| ==> scores[j] <= scores[k])
    && (forall j :: 0 <= j < k ==> scores[j] < scores[k])
  }

  /** The loop ends with a score no entry of the suffix exceeds, and keeps `acc` when no
      entry beats it. */
  lemma {:induction false} ScanKeepsMaximum(faq: seq<FaqEntry>, scores: seq<int>, i: nat, acc: Best)
    requires |scores| == |faq| && i <= |faq|
    ensures forall j :: i <= j < |faq| ==> scores[j] <= Scan(faq, scores, i, acc).score
    ensures (forall j :: i <= j < |faq| ==> scores[j] <= acc.score) ==> Scan(faq, scores, i, acc) == acc
    decreases |faq| - i
  {
    if i < |faq| {
      var next := if scores[i] > acc.score then Best(scores[i], Some(faq[i].answer)) else acc;
      ScanKeepsMaximum(faq, scores, i + 1, next);
      assert Scan(faq, scores, i, acc) == Scan(faq, scores, i + 1, next);
    }
  }

  /** The loop keeps the first entry of the suffix whose score is maximal, provided it beats `acc`. */
  lemma {:induction false} ScanFindsFirstBest(faq: seq<FaqEntry>, scores: seq<int>, i: nat, acc: Best)
    requires |scores| == |faq| && i <= |faq|
    ensures (exists j :: i <= j < |faq| && scores[j] > acc.score) ==>
      exists k :: && i <= k < |faq| && scores[k] > acc.score
                  && Scan(faq, scores, i, acc) == Best(scores[k], Some(faq[k].answer))
                  && forall j :: i <= j < k ==> scores[j] < scores[k]
    decreases |faq| - i
  {
    if i < |faq| {
      var next := if scores[i] > acc.score then Best(scores[i], Some(faq[i].answer)) else acc;
      ScanFindsFirstBest(faq, scores, i + 1, next);
      var r := Scan(faq, scores, i + 1, next);
      assert Scan(faq, scores, i, acc) == r;
      if scores[i] > acc.score {
        if exists j :: i + 1 <= j < |faq| && scores[j] > next.score {
          var k :| && i + 1 <= k < |faq| && scores[k] > next.score
                   && r == Best(scores[k], Some(faq[k].answer))
                   && forall j :: i + 1 <= j < k ==> scores[j] < scores[k];
          assert forall j :: i <= j < k ==> scores[j] < scores[k];
        } else {
          ScanKeepsMaximum(faq, scores, i + 1, next);
          assert r == next == Best(scores[i], Some(faq[i].answer));
        }
      } else {
        assert next == acc;
        if exists j :: i <= j < |faq| && scores[j] > acc.score {
          var j :| i <= j < |faq| && scores[j] > acc.score;
          assert i + 1 <= j;
        }
      }
    }
  }

  /** `check_faq`: the answer of the first FAQ entry with the highest score, if that score
      reaches the threshold. Scores start from 0 and only a strictly greater score is
      recorded, so with a non-positive threshold an all-non-positive FAQ yields None. */
  function CheckFaq(question: string, faq: seq<FaqEntry>, ratio: (string, string) -> int, threshold: int): (r: Option<string>)
    ensures var s := Scores(question, faq, ratio);
      0 < threshold ==> (r.None? <==> forall j :: 0 <= j < |s| ==> s[j] < threshold)
    ensures var s := Scores(question, faq, ratio);
      threshold <= 0 ==> (r.None? <==> forall j :: 0 <= j < |s| ==> s[j] <= 0)
    ensures r.Some? ==> exists k :: FirstBest(Scores(question, faq, ratio), k) && r.value == faq[k].answer
  {
    var s := Scores(question, faq, ratio);
    var best := Scan(faq, s, 0, Best(0, None));
    ScanKeepsMaximum(faq, s, 0, Best(0, None));
    ScanFindsFirstBest(faq, s, 0, Best(0, None));
    if best.score >= threshold then best.answer else None
  }

  /** Scoring lowers both sides, so the case of the question does not matter. */
  lemma CheckFaqIgnoresCase(question: string, faq: seq<FaqEntry>, ratio: (string, string) -> int, threshold: int)
    ensures CheckFaq(Upper(question), faq, ratio, threshold) == CheckFaq(question, faq, ratio, threshold)
    ensures CheckFaq(Lower(question), faq, ratio, threshold) == CheckFaq(question, faq, ratio, threshold)
  {
    LowerAbsorbsCase(question);
    assert Scores(Upper(question), faq, ratio) == Scores(question, faq, ratio);
    assert Scores(Lower(question), faq, ratio) == Scores(question, faq, ratio);
  }

  // ---------------------------------------------------------------------------
  // Language model calls
  // ---------------------------------------------------------------------------

  /** The model's reply to a prompt, stripped: only surrounding whitespace is removed. */
  function AskModel(prompt: string, llm: string -> string): (r: string)
    ensures Trimmed(r, PyWhitespace)
    ensures CutFrom(llm(prompt), r, PyWhitespace)
    ensures Contains(llm(prompt), r)
  {
    Strip(llm(prompt), PyWhitespace)
  }

  /** `language.lower() in ["english", "en"]`. */
  predicate IsEnglish(language: string): (r: bool)
    ensures r ==> |language| == 2 || |language| == 7
    ensures r ==> Lower(language)[0] == 'e'
  {
    Lower(language) == "english" || Lower(language) == "en"
  }

  /** "English" and "EN" count as English, but a region-qualified code such as "en-US"
      does not, so it is sent through translation. */
  lemma EnglishSpellings()
    ensures IsEnglish("English") && IsEnglish("EN")
    ensures !IsEnglish("en-US") && !IsEnglish("Hindi")
  {
    assert Lower("English") == "english";
    assert Lower("EN") == "en";
  }

  function TranslatePrompt(answer: string, language: string): string {
    "Translate the following answer into " + language + ":\n\n" + answer
  }

  /** `translate_answer`: English (in any case) passes through untouched; any other
      language goes through the model. */
  function TranslateAnswer(answer: string, language: string, llm: string -> string): (r: string)
    ensures IsEnglish(language) ==> r == answer
    ensures !IsEnglish(language) ==> r == AskModel(TranslatePrompt(answer, language), llm)
    ensures !IsEnglish(language) ==> Trimmed(r, PyWhitespace)
  {
    if IsEnglish(language) then answer else AskModel(TranslatePrompt(answer, language), llm)
  }

  /** Outside English, a reply that is already trimmed comes back exactly as the model wrote it. */
  lemma TranslatedReplyVerbatim(answer: string, language: string, llm: string -> string)
    requires !IsEnglish(language)
    requires Trimmed(llm(TranslatePrompt(answer, language)), PyWhitespace)
    ensures TranslateAnswer(answer, language, llm) == llm(TranslatePrompt(answer, language))
  {
    TrimmedStripsToItself(llm(TranslatePrompt(answer, language)), PyWhitespace);
  }

  function GeminiPrompt(question: string, language: string): string {
    "\nYou are a helpful assistant. \nAnswer the following question directly in " + language
    + ". \nDo not just repeat or translate the question. \nQuestion: " + question + "\n"
  }

  function EmergencyPrompt(question: string, language: string): string {
    "\nYou are an AI emergency assistant. \nA driver has requested help. \n"
    + "Respond calmly, give step-by-step instructions, and stay conversational. \nReply in "
    + language + ".\n\nDriver said: " + question + "\n"
  }

  // ---------------------------------------------------------------------------
  // Keyword and clock questions
  // ---------------------------------------------------------------------------

  /** Python's `any(w in text for w in words)`. */
  function AnyContained(text: string, words: seq<string>): (r: bool)
    ensures r <==> exists k :: 0 <= k < |words| && Contains(text, words[k])
  {
    if words == [] then false
    else Contains(text, words[0]) || AnyContained(text, words[1..])
  }

  /** `is_emergency`: some keyword is a substring of the lowered question. */
  function IsEmergency(question: string): (r: bool)
    ensures r <==> exists k :: 0 <= k < |EmergencyKeywords| && Contains(Lower(question), EmergencyKeywords[k])
  {
    AnyContained(Lower(question), EmergencyKeywords)
  }

  function DateAnswer(today: string): string {
    "Today's date is " + today
  }

  function TimeAnswer(now: string): string {
    "The current time is " + now
  }

  /** `check_realtime_questions`: "date" is looked for before "time". */
  function CheckRealtime(question: string, language: string, env: Env): (r: Option<string>)
    ensures r.Some? <==> Contains(Lower(question), "date") || Contains(Lower(question), "time")
    ensures Contains(Lower(question), "date") ==> r == Some(TranslateAnswer(DateAnswer(env.today), language, env.llm))
    ensures (!Contains(Lower(question), "date") && Contains(Lower(question), "time")) ==>
              r == Some(TranslateAnswer(TimeAnswer(env.now), language, env.llm))
  {
    var q := Lower(question);
    if Contains(q, "date") then Some(TranslateAnswer(DateAnswer(env.today), language, env.llm))
    else if Contains(q, "time") then Some(TranslateAnswer(TimeAnswer(env.now), language, env.llm))
    else None
  }

  /** A question mentioning a date is answered with the date, even when it also mentions time. */
  lemma DateWinsOverTime(question: string, language: string, env: Env)
    requires Contains(Lower(question), "date")
    ensures CheckRealtime(question, language, env) == Some(TranslateAnswer(DateAnswer(env.today), language, env.llm))
  {
  }

  // ---------------------------------------------------------------------------
  // Dispatch
  // ---------------------------------------------------------------------------

  /** Which step of the handler produced the answer. */
  datatype Route = EmergencyRoute | RealtimeRoute | FaqRoute | FallbackRoute

  datatype Reply = Reply(route: Route, text: string)

  /** `get_response`, recording which step answered. A step is taken only when its
      result is truthy, so an empty realtime or FAQ answer falls through to the next. */
  function Respond(question: string, language: string, env: Env): (r: Reply)
    ensures IsEmergency(question) ==>
      r == Reply(EmergencyRoute, AskModel(EmergencyPrompt(question, language), env.llm))
    ensures !IsEmergency(question) && Truthy(CheckRealtime(question, language, env)) ==>
      r == Reply(RealtimeRoute, CheckRealtime(question, language, env).value)
    ensures && !IsEmergency(question) && !Truthy(CheckRealtime(question, language, env))
            && Truthy(CheckFaq(question, env.faq, env.ratio, DefaultThreshold)) ==>
      r == Reply(FaqRoute, TranslateAnswer(CheckFaq(question, env.faq, env.ratio, DefaultThreshold).value, language, env.llm))
    ensures && !IsEmergency(question) && !Truthy(CheckRealtime(question, language, env))
            && !Truthy(CheckFaq(question, env.faq, env.ratio, DefaultThreshold)) ==>
      r == Reply(FallbackRoute, AskModel(GeminiPrompt(question, language), env.llm))
  {
    if IsEmergency(question) then
      Reply(EmergencyRoute, AskModel(EmergencyPrompt(question, language), env.llm))
    else
      var realtime := CheckRealtime(question, language, env);
      if Truthy(realtime) then Reply(RealtimeRoute, realtime.value)
      else
        var faqAnswer := CheckFaq(question, env.faq, env.ratio, DefaultThreshold);
        if Truthy(faqAnswer) then Reply(FaqRoute, TranslateAnswer(faqAnswer.value, language, env.llm))
        else Reply(FallbackRoute, AskModel(GeminiPrompt(question, language), env.llm))
  }

  /** `get_response`: the text of the reply, from the first source that yields one. */
  function GetResponse(question: string, language: string, env: Env): (r: string)
    ensures IsEmergency(question) ==> r == AskModel(EmergencyPrompt(question, language), env.llm)
    ensures !IsEmergency(question) && Truthy(CheckRealtime(question, language, env)) ==>
      r == CheckRealtime(question, language, env).value
    ensures && !IsEmergency(question) && !Truthy(CheckRealtime(question, language, env))
            && Truthy(CheckFaq(question, env.faq, env.ratio, DefaultThreshold)) ==>
      r == TranslateAnswer(CheckFaq(question, env.faq, env.ratio, DefaultThreshold).value, language, env.llm)
    ensures && !IsEmergency(question) && !Truthy(CheckRealtime(question, language, env))
            && !Truthy(CheckFaq(question, env.faq, env.ratio, DefaultThreshold)) ==>
      r == AskModel(GeminiPrompt(question, language), env.llm)
  {
    Respond(question, language, env).text
  }

  /** An emergency question is answered without looking at the clock, the FAQ or the
      scorer: only the model is consulted, with the emergency prompt. */
  lemma EmergencyComesFirst(question: string, language: string, faq1: seq<FaqEntry>, faq2: seq<FaqEntry>,
                            ratio1: (string, string) -> int, ratio2: (string, string) -> int,
                            llm: string -> string, today1: string, today2: string, now1: string, now2: string)
    requires IsEmergency(question)
    ensures GetResponse(question, language, Env(faq1, ratio1, llm, today1, now1))
         == GetResponse(question, language, Env(faq2, ratio2, llm, today2, now2))
         == AskModel(EmergencyPrompt(question, language), llm)
  {
    var reply := Reply(EmergencyRoute, AskModel(EmergencyPrompt(question, language), llm));
    assert Respond(question, language, Env(faq1, ratio1, llm, today1, now1)) == reply;
    assert Respond(question, language, Env(faq2, ratio2, llm, today2, now2)) == reply;
  }

  /** In English, a date question that is not an emergency gets the literal date sentence. */
  lemma EnglishDateAnswer(question: string, language: string, env: Env)
    requires IsEnglish(language) && !IsEmergency(question)
    requires Contains(Lower(question), "date")
    ensures GetResponse(question, language, env) == DateAnswer(env.today)
  {
  }

  /** In English, a question that is neither an emergency nor about the clock gets the
      stored FAQ answer verbatim when the lookup finds a non-empty one. */
  lemma EnglishFaqVerbatim(question: string, language: string, env: Env, answer: string)
    requires IsEnglish(language) && !IsEmergency(question)
    requires !Contains(Lower(question), "date") && !Contains(Lower(question), "time")
    requires CheckFaq(question, env.faq, env.ratio, DefaultThreshold) == Some(answer) && answer != ""
    ensures GetResponse(question, language, env) == answer
  {
  }

  /** A question that triggers no step is passed to the model with the answering prompt. */
  lemma FallbackWhenNothingMatches(question: string, language: string, env: Env)
    requires !IsEmergency(question)
    requires !Contains(Lower(question), "date") && !Contains(Lower(question), "time")
    requires forall j :: 0 <= j < |env.faq| ==> Scores(question, env.faq, env.ratio)[j] < DefaultThreshold
    ensures GetResponse(question, language, env) == AskModel(GeminiPrompt(question, language), env.llm)
  {
  }

  /** "Truck caught FIRE" is an emergency. */
  lemma FireIsEmergency()
    ensures IsEmergency("Truck caught FIRE")
  {
    var q := Lower("Truck caught FIRE");
    assert q == "truck caught fire";
    assert q[13..] == "fire";
    assert OccursAt(q, "fire", 13);
    ContainsIffOccurs(q, "fire");
    assert Contains(q, EmergencyKeywords[3]);
  }
}
