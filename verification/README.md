# Porter Saathi: verified model of the voice session, the chatbot router and the SQL clean-up

This project models, in Dafny, the three pieces of sequential logic in the Porter Saathi
repository:

- **The voice-assistant session** of the React front end (`saathi-frontend/src/App.jsx`).
  The component's state is a record `Session`: the message log, the listening flag, the
  chosen language, the stored copy of the language, whether the picker is shown, the
  recognizer's language, and the language that the transcript handler captured when it
  was built. Each handler is a pure transition: start-up, `onresult`, `onend`,
  `onerror`, `startListening`, `stopListening`, `selectLanguage`, the effect that keeps
  the recognizer's language in sync, the "Change" button and the talk button. A
  transition returns the next state and the browser effects it asks for: cancel speech,
  utter text with a voice, or alert. `chooseVoice` and `speak` are pure functions over
  the voices the platform offers. Events can be composed into runs. Over any run, the
  log is append-only, the stored preference stays consistent with the language, and
  every utterance comes straight after a cancellation.
- **Question routing** in the Python chatbot (`backend/saathi_api/utils/porter_chatbot.py`).
  It checks emergency keywords first, then date/time questions, then the fuzzy FAQ
  lookup (the first entry with the highest score, if that score reaches 80), then the
  LLM fallback. The LLM, `fuzz.ratio` and the clock are fields of an `Env` record of
  functions and strings.
- **SQL fence clean-up** in `generate_sql` (`backend/saathi_api/utils/ai_service.py`,
  lines 44-45). It strips, deletes every "```sql", deletes every "```", and strips
  again. Python's left-to-right, non-overlapping `str.replace` is modelled exactly. The
  result is proved to hold no "```". This holds only because of how backtick runs
  behave: a run of n backticks becomes a run of n mod 3.

Modules: `Wrappers` (Option, truthiness), `Text` (case mapping, prefix/substring,
Python `strip` and JavaScript `trim` with their own whitespace sets, `str.replace`),
`SqlCleanup`, `PorterChatbot`, `VoiceSession`.

The component has no busy phase, no pending reply and no language-catalog check, and it
does not restart capture when the language changes: `selectLanguage` accepts any code,
the reply is a synchronous echo of the transcript in quotes, and nothing is rejected as
busy.

The transcript handler is created once, at mount. Because of that, the language it
stamps on messages and speaks in is the start-up language, not the current one.
`Session.closureLang` holds that captured value, and `VoiceSession.StaleLanguageExample`
shows the effect: after switching to "hi-IN", a transcript is still logged as "en-US".
The file's header comment says speech synthesis always uses the selected language. The
model keeps the behaviour as written.

## Model

| member | source | states |
|---|---|---|
| Text.ContainsIffOccurs | backend/saathi_api/utils/porter_chatbot.py:58 | Python's `w in s` holds exactly when `w` occurs at some index of `s` |
| Text.Lower | backend/saathi_api/utils/porter_chatbot.py:21 | `.lower()` on ASCII: the length is kept, no capital A-Z remains, and every character that is not a capital is left as it is |
| Text.LowerAbsorbsCase | backend/saathi_api/utils/porter_chatbot.py:21 | lowering forgets earlier case changes: `lower(lower(s))` and `lower(upper(s))` both equal `lower(s)` |
| Text.TrimStart | backend/saathi_api/utils/ai_service.py:44 | drops exactly the leading whitespace run: the removed prefix is all whitespace and the result is empty or starts with non-whitespace |
| Text.TrimEnd | backend/saathi_api/utils/ai_service.py:44 | drops exactly the trailing whitespace run: the removed suffix is all whitespace and the result is empty or ends with non-whitespace |
| Text.Strip | backend/saathi_api/utils/ai_service.py:44 | `strip()`/`trim()`: the result is a substring of the input, only whitespace is cut from either side, and neither end of the result is whitespace |
| Text.StripFixesTrimmed | backend/saathi_api/utils/ai_service.py:45 | stripping leaves a string unchanged exactly when its ends are not whitespace; so stripping twice equals stripping once |
| Text.StripEmptyIffBlank | saathi-frontend/src/App.jsx:65-66 | a transcript trims to the empty string exactly when it is all whitespace |
| Text.ReplaceAll | backend/saathi_api/utils/ai_service.py:45 | `str.replace`: every character of the result comes from the input or the replacement, and deleting occurrences never lengthens the text. `Text.ReplaceAbsent`, `SqlCleanup.UnfenceTicks`, `SqlCleanup.DropSqlTag` and `SqlCleanup.UnfenceClosing` pin down its left-to-right, non-overlapping behaviour |
| Text.ReplaceAbsent | backend/saathi_api/utils/ai_service.py:45 | `replace` of a pattern that does not occur returns the string unchanged |
| SqlCleanup.UnfenceTicks | backend/saathi_api/utils/ai_service.py:45 | deleting "```" left to right turns a leading run of n backticks into a run of n mod 3 |
| SqlCleanup.UnfenceLeavesNoFence | backend/saathi_api/utils/ai_service.py:45 | after `replace("```", "")` the text holds no "```", for every input |
| SqlCleanup.CleanSql | backend/saathi_api/utils/ai_service.py:44-45 | the cleaned query contains no "```" and has no leading or trailing whitespace |
| SqlCleanup.CleanIdempotent | backend/saathi_api/utils/ai_service.py:44-45 | cleaning an already cleaned query changes nothing |
| SqlCleanup.CleanFixesClean | backend/saathi_api/utils/ai_service.py:44-45 | a trimmed text without "```" is a fixed point of the clean-up |
| SqlCleanup.CleanPlain | backend/saathi_api/utils/ai_service.py:44-45 | text without backticks is only stripped |
| SqlCleanup.DropSqlTag | backend/saathi_api/utils/ai_service.py:45 | in "```sql" + body + "```" with a backtick-free body, the first replace removes only the opening tag |
| SqlCleanup.UnfenceClosing | backend/saathi_api/utils/ai_service.py:45 | a closing "```" after backtick-free text is removed and nothing else is |
| SqlCleanup.CleanFencedBlock | backend/saathi_api/utils/ai_service.py:45 | for a body with no backtick, "```sql" + body + "```" cleans to the stripped body: the `sql` tag does not survive because it is removed before the bare fences. A body with backticks is excluded: with body "```" the block cleans to "" |
| SqlCleanup.CleanExample | backend/saathi_api/utils/ai_service.py:44-45 | "```sql\nSELECT 1\n```" cleans to "SELECT 1" |
| PorterChatbot.Scores | backend/saathi_api/utils/porter_chatbot.py:20-21 | each FAQ entry is scored by the ratio of the lowered question and the lowered entry question |
| PorterChatbot.Scan | backend/saathi_api/utils/porter_chatbot.py:20-24 | the loop never lowers the best score, and it changes the recorded best only when a strictly greater score appears |
| PorterChatbot.ScanKeepsMaximum | backend/saathi_api/utils/porter_chatbot.py:20-24 | the loop ends with a score no entry exceeds, and keeps its start value when no entry beats it |
| PorterChatbot.ScanFindsFirstBest | backend/saathi_api/utils/porter_chatbot.py:18-24 | when some entry beats the start value, the loop with its strict `>` ends holding the first entry with the maximal score |
| PorterChatbot.CheckFaq | backend/saathi_api/utils/porter_chatbot.py:17-27 | for a positive threshold the result is None exactly when every score is below the threshold; for a non-positive one, exactly when no score is positive; a returned answer belongs to the first entry with the maximal score |
| PorterChatbot.CheckFaqIgnoresCase | backend/saathi_api/utils/porter_chatbot.py:21 | upper- or lower-casing the question does not change the FAQ result |
| PorterChatbot.AskModel | backend/saathi_api/utils/porter_chatbot.py:33-34 | a model reply is returned stripped: it is the raw reply with only a whitespace prefix and a whitespace suffix removed, and neither end of it is whitespace |
| PorterChatbot.IsEnglish | backend/saathi_api/utils/porter_chatbot.py:30 | a language counts as English only if it is two or seven characters long and starts with "e" or "E" |
| PorterChatbot.EnglishSpellings | backend/saathi_api/utils/porter_chatbot.py:30 | "English" and "EN" count as English; "en-US" and "Hindi" do not, so a region-qualified English code goes through translation |
| PorterChatbot.TranslateAnswer | backend/saathi_api/utils/porter_chatbot.py:29-34 | "english"/"en" in any case returns the answer unchanged; any other language returns the stripped model reply to the translate prompt, which is trimmed |
| PorterChatbot.TranslatedReplyVerbatim | backend/saathi_api/utils/porter_chatbot.py:32-34 | outside English, a model reply without surrounding whitespace is returned exactly as written |
| PorterChatbot.AnyContained | backend/saathi_api/utils/porter_chatbot.py:58 | `any(w in text for w in words)` holds exactly when some word of the list occurs in the text |
| PorterChatbot.IsEmergency | backend/saathi_api/utils/porter_chatbot.py:56-58 | true exactly when one of help, sahayata, emergency, fire, injury occurs in the lowered question |
| PorterChatbot.FireIsEmergency | backend/saathi_api/utils/porter_chatbot.py:56-58 | "Truck caught FIRE" is an emergency: matching is case-insensitive and by substring |
| PorterChatbot.CheckRealtime | backend/saathi_api/utils/porter_chatbot.py:46-54 | an answer is produced exactly when the lowered question contains "date" or "time"; a "date" question gets the (translated) date sentence, and a "time" question without "date" gets the (translated) time sentence |
| PorterChatbot.DateWinsOverTime | backend/saathi_api/utils/porter_chatbot.py:48-50 | a question containing "date" gets the date answer even if it also contains "time" |
| PorterChatbot.Respond | backend/saathi_api/utils/porter_chatbot.py:73-89 | the emergency step is taken first; a truthy realtime answer comes next; then a truthy FAQ answer, translated; otherwise the LLM fallback. An empty realtime or FAQ answer falls through |
| PorterChatbot.GetResponse | backend/saathi_api/utils/porter_chatbot.py:73-89 | the returned text: the emergency reply for an emergency; else a truthy realtime answer; else the translated truthy FAQ answer; else the model fallback |
| PorterChatbot.EmergencyComesFirst | backend/saathi_api/utils/porter_chatbot.py:75-76 | an emergency question gets the emergency reply whatever the FAQ, the scorer and the clock are: those steps are never reached |
| PorterChatbot.EnglishDateAnswer | backend/saathi_api/utils/porter_chatbot.py:79-81 | in English, a non-emergency date question is answered with the literal date sentence |
| PorterChatbot.EnglishFaqVerbatim | backend/saathi_api/utils/porter_chatbot.py:84-86 | in English, a non-emergency, non-clock question with a non-empty FAQ hit gets the stored answer verbatim |
| PorterChatbot.FallbackWhenNothingMatches | backend/saathi_api/utils/porter_chatbot.py:88-89 | a question with no emergency keyword, no clock word and every FAQ score below 80 is sent to the model with the answering prompt |
| VoiceSession.RestoredLanguage | saathi-frontend/src/App.jsx:19 | the stored language when it is non-empty, else "en-US" |
| VoiceSession.Init | saathi-frontend/src/App.jsx:13-62 | one welcome message; not listening; the language is the non-empty stored value or "en-US"; the picker is shown exactly when nothing non-empty is stored; a recognizer exists exactly when the browser supports it and is bound to that language |
| VoiceSession.BeforeDash | saathi-frontend/src/App.jsx:120 | `split("-")[0]`: the longest prefix without '-', followed in the input by '-' or the end |
| VoiceSession.FirstMatch | saathi-frontend/src/App.jsx:121 | `find`: the index of the first voice whose language starts with the prefix, ignoring case, or None when no voice does |
| VoiceSession.ChooseVoice | saathi-frontend/src/App.jsx:119-123 | the first voice matching the primary subtag; otherwise the first voice matching "en"; otherwise none |
| VoiceSession.PrimarySubtag | saathi-frontend/src/App.jsx:120 | `(bcp \|\| "en").split("-")[0]`: a dash-free prefix of the code that ends at the first dash or the end, and "en" for the empty code |
| VoiceSession.PrimarySubtagExamples | saathi-frontend/src/App.jsx:120 | the subtag of "hi-IN" is "hi"; an empty code is treated as "en" |
| VoiceSession.ChooseVoicePrefersSubtag | saathi-frontend/src/App.jsx:121 | for "hi-IN" a later "HI-in" voice wins over an earlier "en-US" voice |
| VoiceSession.ChooseVoiceFallsBackToEnglish | saathi-frontend/src/App.jsx:122 | with no Hindi voice, "hi-IN" gets the first English voice, skipping voices without a language |
| VoiceSession.Speak | saathi-frontend/src/App.jsx:125-133 | without synthesis nothing happens; otherwise the current speech is cancelled before the text is uttered in the given language with the chosen voice |
| VoiceSession.TrimmedTranscript | saathi-frontend/src/App.jsx:65-66 | the trimmed transcript is falsy exactly when the event has no transcript or it is blank |
| VoiceSession.OnResult | saathi-frontend/src/App.jsx:64-76 | a missing or blank transcript (see `TrimmedTranscript`) changes nothing; otherwise exactly two messages are appended, the trimmed user text and then the same text in double quotes, both in the captured language, and the reply is spoken |
| VoiceSession.OnCaptureClosed | saathi-frontend/src/App.jsx:78-82 | `onend` and `onerror` both end listening and change nothing else |
| VoiceSession.SyncRecognizer | saathi-frontend/src/App.jsx:101-107 | an existing recognizer is rebound to the session language; nothing else changes |
| VoiceSession.StartListening | saathi-frontend/src/App.jsx:138-147 | without a recognizer: an alert and no change. Otherwise the recognizer is bound to the language; a successful start sets listening; a throwing start keeps the old flag |
| VoiceSession.StopListening | saathi-frontend/src/App.jsx:149-154 | listening ends unless `stop` itself throws, in which case nothing changes |
| VoiceSession.SelectLanguage | saathi-frontend/src/App.jsx:156-163 | any code becomes the language and the stored value, the picker closes, exactly one "Language set to" notice is appended, and the confirmation is spoken in that language |
| VoiceSession.OpenPicker | saathi-frontend/src/App.jsx:219 | the picker is shown and nothing else changes |
| VoiceSession.Tap | saathi-frontend/src/App.jsx:226 | the talk button stops when listening and starts otherwise |
| VoiceSession.StepKeeps | saathi-frontend/src/App.jsx:64-163 | every handler appends to the log (the old log is a prefix), keeps the captured language and the recognizer's presence, preserves consistency of the stored language, and cancels before it utters |
| VoiceSession.RunKeeps | saathi-frontend/src/App.jsx:13-163 | over any sequence of events, each on its own platform (the voice list may change between events), the log after the run extends the log before it, the captured language and the recognizer's presence are kept, consistency is preserved, and speech is cancelled before every utterance |
| VoiceSession.RunAppend | saathi-frontend/src/App.jsx:13-163 | running one trace and then another gives the same state as running their concatenation, and the effects are concatenated |
| VoiceSession.RunLogGrows | saathi-frontend/src/App.jsx:13-163 | every earlier log is a prefix of every later one: the log after any prefix of a trace is a prefix of the log after any longer prefix |
| VoiceSession.InitConsistent | saathi-frontend/src/App.jsx:19-20 | a fresh session's language is what a reload would restore, and a hidden picker means something is stored |
| VoiceSession.SelectTwice | saathi-frontend/src/App.jsx:156-161 | selecting the same code twice appends one notice per call, and the rest of the state equals the state after the first call |
| VoiceSession.TranscriptUsesStartupLanguage | saathi-frontend/src/App.jsx:53-96 | after any run, on any succession of platforms, a transcript's two messages carry the start-up language, whatever language is selected now |
| VoiceSession.StaleLanguageExample | saathi-frontend/src/App.jsx:64-75 | starting in "en-US" and selecting "hi-IN", the next transcript is logged and spoken as "en-US" while the session language is "hi-IN", even when the voice list changed in between |
| VoiceSession.StartWithoutRecognizer | saathi-frontend/src/App.jsx:139 | when recognition is unsupported, pressing start only raises the alert |

## Left out

- Rendering, auto-scroll and time formatting (App.jsx:109-114, 165-250) are UI output. Two buttons are kept as transitions: "Change" (`OpenPicker`) and the talk button (`Tap`).
- The voice-loading effect (App.jsx:39-48) is not modelled as an event. Each event of a run is paired with the `Platform` at its moment (`Moment`), so the voice list may differ from one event to the next, as when `onvoiceschanged` re-reads `getVoices()`. The presence of speech synthesis is part of the same parameter.
- That effect calls `window.speechSynthesis.getVoices()` and assigns `onvoiceschanged` without a guard (App.jsx:41, 44). In a browser without speech synthesis the component therefore throws at mount and no session exists. Runs with `Platform(synthesis := false)` cannot happen in the source, and the early return of the guard in `speak` (App.jsx:126) is never taken. The model keeps that branch so `Speak` follows the code as written.
- Browser speech objects are reduced to what the handlers observe. `start` and `stop` may throw, which is a boolean parameter, and a recognizer exists or not. Events can arrive in any order. The model does not assume the browser delivers `onresult` only while listening.
- The recognizer teardown at unmount (App.jsx:86-93) and the `console.warn` calls are not modelled.
- Message ids and timestamps come from `Date.now()` and are opaque `Stamp` parameters. The reply's `Date.now() + 1` id is one such stamp.
- `localStorage` is the `stored` field. Lines 19 and 20 read it twice; the model assumes both reads return the same value.
- React applies state updates asynchronously and runs effects after render. The model applies each handler's updates in order. `SyncRecognizer` is a separate event that is not forced to follow `SelectLanguage`.
- VoiceSession.Speak: the utterance is reduced to text, language and voice. Pitch, rate and the queueing inside the synthesis engine are not modelled.
- Text.Lower: maps only ASCII A-Z. Python's `str.lower` and JavaScript's `toLowerCase` also map non-ASCII letters, which this model does not.
- Text.LowerAbsorbsCase: the `Upper` half holds only for the ASCII-only case mapping. In Python `"ß".upper()` is `"SS"`, whose lower case `"ss"` differs from `"ß".lower()`, so `lower(upper(s)) == lower(s)` fails outside ASCII. The `Lower` half holds in general.
- PorterChatbot.CheckFaqIgnoresCase: the `Upper` half rests on the same ASCII-only mapping. Upper-casing a question with letters such as "ß" changes what `fuzz.ratio` receives in Python and so can change the FAQ result. Lower-casing the question never does.
- Gemini calls, `fuzz.ratio` and `datetime` are fields of `Env`: a function from prompt to reply text, a scoring function, and two preformatted clock strings. Scores are not assumed to lie in 0..100; no property needs it.
- Module-level configuration, loading the FAQ file and the `__main__` block of porter_chatbot.py are I/O. The FAQ is a list of (question, answer) pairs in file order. Duplicate keys and non-string values in the JSON are not modelled.
- The rest of ai_service.py (prompt building, the OpenRouter HTTP call, response decoding) is network plumbing.
- backend/saathi_api/views.py (an HTTP wrapper over a text-to-speech SDK), models.py (database schema) and urls.py (routing table) have no logic to model.
