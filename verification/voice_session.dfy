/** The voice assistant's session state as a pure transition system: the message log,
    the listening flag, the chosen language and its stored copy, the language picker,
    and the speech recognizer's language. Browser speech objects are abstracted to what
    the handlers observe: whether a recognizer exists, whether `start`/`stop` throw,
    whether speech synthesis exists and which voices it offers. */
module VoiceSession {
  import opened Wrappers
  import opened Text

  const DefaultLanguage := "en-US"
  const Welcome := "\U{1F44B} Welcome to Saathi Voice Assistant"
  const LanguageSetSpeech := "Language set. You can start speaking now."
  const NotSupported := "SpeechRecognition not supported"

  datatype Kind = User | Ai

  /** Message id and timestamp, both taken from the clock; opaque here. */
  datatype Stamp = Stamp(id: int, ts: int)

  datatype Msg = Msg(kind: Kind, text: string, lang: string, stamp: Stamp)

  /** A synthesis voice; `lang` is None when the platform leaves it undefined. */
  datatype Voice = Voice(name: string, lang: Option<string>)

  /** The speech synthesis facilities at the moment of speaking. */
  datatype Platform = Platform(synthesis: bool, voices: seq<Voice>)

  /** A speech recognizer, reduced to the language it will listen in. */
  datatype Recognizer = Recognizer(lang: string)

  /** What a handler asks of the browser besides changing state. */
  datatype Effect =
    | CancelSpeech
    | Utter(text: string, lang: string, voice: Option<Voice>)
    | Alert(text: string)

  datatype Session = Session(
    messages: seq<Msg>,
    listening: bool,
    language: string,
    stored: Option<string>,        // the persisted language preference
    pickerVisible: bool,
    recognizer: Option<Recognizer>,
    closureLang: string)           // the language the transcript handler captured when it was built

  datatype Next = Next(state: Session, effects: seq<Effect>)

  // ---------------------------------------------------------------------------
  // Start-up
  // ---------------------------------------------------------------------------

  /** The language restored from storage: the stored value when it is non-empty. */
  function RestoredLanguage(stored: Option<string>): (lang: string)
    ensures Truthy(stored) ==> lang == stored.value
    ensures !Truthy(stored) ==> lang == DefaultLanguage
  {
    if Truthy(stored) then stored.value else DefaultLanguage
  }

  /** The first render and the mount effects: one welcome message, not listening, the
      restored language, the picker shown when nothing usable is stored, and a recognizer
      bound to the restored language when the browser supports recognition. */
  function Init(stored: Option<string>, recognitionSupported: bool, stamp: Stamp): (s: Session)
    ensures s.messages == [Msg(Ai, Welcome, DefaultLanguage, stamp)]
    ensures !s.listening
    ensures Truthy(stored) ==> s.language == stored.value
    ensures !Truthy(stored) ==> s.language == DefaultLanguage
    ensures s.pickerVisible <==> !Truthy(stored)
    ensures s.stored == stored
    ensures s.recognizer.Some? <==> recognitionSupported
    ensures s.recognizer.Some? ==> s.recognizer.value.lang == s.language
    ensures s.closureLang == s.language
  {
    var lang := RestoredLanguage(stored);
    Session(
      messages := [Msg(Ai, Welcome, DefaultLanguage, stamp)],
      listening := false,
      language := lang,
      stored := stored,
      pickerVisible := !Truthy(stored),
      recognizer := if recognitionSupported then Some(Recognizer(lang)) else None,
      closureLang := lang)
  }

  // ---------------------------------------------------------------------------
  // Voice selection and speaking
  // ---------------------------------------------------------------------------

  /** The text before the first '-', as `split("-")[0]` yields it. */
  function BeforeDash(s: string): (r: string)
    ensures StartsWith(s, r)
    ensures '-' !in r
    ensures |r| < |s| ==> s[|r|] == '-'
  {
    if s == [] || s[0] == '-' then [] else [s[0]] + BeforeDash(s[1..])
  }

  /** The primary subtag of a language code; an empty code counts as "en". */
  function PrimarySubtag(bcp: string): (r: string)
    ensures '-' !in r
    ensures bcp != "" ==> StartsWith(bcp, r) && (|r| == |bcp| || bcp[|r|] == '-')
    ensures bcp == "" ==> r == "en"
  {
    BeforeDash(if bcp == "" then "en" else bcp)
  }

  predicate VoiceMatches(v: Voice, prefix: string) {
    v.lang.Some? && StartsWith(Lower(v.lang.value), Lower(prefix))
  }

  /** Index of the first voice matching `prefix`, in list order. */
  function FirstMatch(voices: seq<Voice>, prefix: string): (r: Option<nat>)
    ensures r.Some? ==> r.value < |voices| && VoiceMatches(voices[r.value], prefix)
    ensures r.Some? ==> forall j :: 0 <= j < r.value ==> !VoiceMatches(voices[j], prefix)
    ensures r.None? ==> forall j :: 0 <= j < |voices| ==> !VoiceMatches(voices[j], prefix)
  {
    if voices == [] then None
    else if VoiceMatches(voices[0], prefix) then Some(0)
    else match FirstMatch(voices[1..], prefix)
      case Some(k) => Some(k + 1)
      case None => None
  }

  ghost predicate IsFirstMatch(voices: seq<Voice>, k: int, prefix: string) {
    && 0 <= k < |voices| && VoiceMatches(voices[k], prefix)
    && forall j :: 0 <= j < k ==> !VoiceMatches(voices[j], prefix)
  }

  ghost predicate AnyMatch(voices: seq<Voice>, prefix: string) {
    exists k :: 0 <= k < |voices| && VoiceMatches(voices[k], prefix)
  }

  /** `chooseVoice`: the first voice whose language starts, ignoring case, with the
      primary subtag; failing that the first English voice; failing that none. */
  function ChooseVoice(bcp: string, voices: seq<Voice>): (r: Option<Voice>)
    ensures AnyMatch(voices, PrimarySubtag(bcp)) ==>
      exists k :: IsFirstMatch(voices, k, PrimarySubtag(bcp)) && r == Some(voices[k])
    ensures !AnyMatch(voices, PrimarySubtag(bcp)) && AnyMatch(voices, "en") ==>
      exists k :: IsFirstMatch(voices, k, "en") && r == Some(voices[k])
    ensures !AnyMatch(voices, PrimarySubtag(bcp)) && !AnyMatch(voices, "en") ==> r == None
  {
    match FirstMatch(voices, PrimarySubtag(bcp))
    case Some(k) => Some(voices[k])
    case None =>
      match FirstMatch(voices, "en")
      case Some(k) => Some(voices[k])
      case None => None
  }

  /** Every utterance is immediately preceded by a cancellation of whatever was playing. */
  predicate CancelsFirst(effects: seq<Effect>) {
    forall i :: 0 <= i < |effects| && effects[i].Utter? ==> 0 < i && effects[i - 1] == CancelSpeech
  }

  /** `speak`: nothing without speech synthesis; otherwise cancel, then utter the text in
      `bcp` with the chosen voice. */
  function Speak(text: string, bcp: string, p: Platform): (r: seq<Effect>)
    ensures !p.synthesis ==> r == []
    ensures p.synthesis ==> r == [CancelSpeech, Utter(text, bcp, ChooseVoice(bcp, p.voices))]
    ensures CancelsFirst(r)
  {
    if !p.synthesis then [] else [CancelSpeech, Utter(text, bcp, ChooseVoice(bcp, p.voices))]
  }

  // ---------------------------------------------------------------------------
  // Handlers
  // ---------------------------------------------------------------------------

  /** `transcript?.trim()`: the trimmed transcript, or None when the event carries none.
      It is falsy exactly when the raw transcript is missing or blank. */
  function TrimmedTranscript(raw: Option<string>): (t: Option<string>)
    ensures t.Some? <==> raw.Some?
    ensures Truthy(t) <==> raw.Some? && !AllSpace(raw.value, JsWhitespace)
    ensures t.Some? ==> Trimmed(t.value, JsWhitespace) && CutFrom(raw.value, t.value, JsWhitespace)
  {
    match raw
    case None => None
    case Some(text) =>
      StripEmptyIffBlank(text, JsWhitespace);
      Some(Strip(text, JsWhitespace))
  }

  /** `onresult`. `raw` is the first alternative's transcript. A blank transcript changes
      nothing; otherwise the trimmed text is logged as a user message and echoed in quotes
      as the reply, which is spoken. Both messages and the speech use the language
      captured when the handler was built. */
  function OnResult(s: Session, raw: Option<string>, userStamp: Stamp, aiStamp: Stamp, p: Platform): (n: Next)
    ensures !Truthy(TrimmedTranscript(raw)) ==> n == Next(s, [])
    ensures Truthy(TrimmedTranscript(raw)) ==>
      var t := TrimmedTranscript(raw).value;
      && n.state == s.(messages := s.messages + [Msg(User, t, s.closureLang, userStamp)]
                                              + [Msg(Ai, "\"" + t + "\"", s.closureLang, aiStamp)])
      && n.effects == Speak("\"" + t + "\"", s.closureLang, p)
  {
    var transcript := TrimmedTranscript(raw);
    if !Truthy(transcript) then Next(s, [])
    else
      var t := transcript.value;
      var response := "\"" + t + "\"";
      var userMsg := Msg(User, t, s.closureLang, userStamp);
      var aiMsg := Msg(Ai, response, s.closureLang, aiStamp);
      Next(s.(messages := s.messages + [userMsg] + [aiMsg]), Speak(response, s.closureLang, p))
  }

  /** `onend` and `onerror`: capture finished or failed (a failure is only logged to the
      console); either way listening ends. */
  function OnCaptureClosed(s: Session): (r: Session)
    ensures !r.listening
    ensures r.(listening := s.listening) == s
  {
    s.(listening := false)
  }

  /** The effect keeping the recognizer's language equal to the session language. */
  function SyncRecognizer(s: Session): (r: Session)
    ensures r.recognizer.Some? <==> s.recognizer.Some?
    ensures r.recognizer.Some? ==> r.recognizer.value.lang == s.language
    ensures r.(recognizer := s.recognizer) == s
  {
    if s.recognizer.Some? then s.(recognizer := Some(Recognizer(s.language))) else s
  }

  /** `startListening`. Without a recognizer the user is alerted and nothing changes.
      Otherwise the recognizer is bound to the current language before `start`; when
      `start` throws (`startThrows`) the listening flag keeps its value. */
  function StartListening(s: Session, startThrows: bool): (n: Next)
    ensures s.recognizer.None? ==> n == Next(s, [Alert(NotSupported)])
    ensures s.recognizer.Some? ==> n.effects == [] && n.state.recognizer == Some(Recognizer(s.language))
    ensures s.recognizer.Some? && !startThrows ==> n.state.listening
    ensures s.recognizer.Some? && startThrows ==> n.state.listening == s.listening
    ensures n.state.(listening := s.listening, recognizer := s.recognizer) == s
  {
    if s.recognizer.None? then Next(s, [Alert(NotSupported)])
    else
      var bound := s.(recognizer := Some(Recognizer(s.language)));
      if startThrows then Next(bound, []) else Next(bound.(listening := true), [])
  }

  /** `stopListening`. With no recognizer the optional call does nothing and listening
      ends; when `stop` throws (`stopThrows`) nothing changes. */
  function StopListening(s: Session, stopThrows: bool): (r: Session)
    ensures s.recognizer.None? || !stopThrows ==> !r.listening
    ensures s.recognizer.Some? && stopThrows ==> r == s
    ensures r.(listening := s.listening) == s
  {
    if s.recognizer.Some? && stopThrows then s else s.(listening := false)
  }

  /** `selectLanguage`: any code is accepted. It becomes the session language and the
      stored preference, the picker closes, one notice is logged and a confirmation is
      spoken in that language. */
  function SelectLanguage(s: Session, lang: string, stamp: Stamp, p: Platform): (n: Next)
    ensures n.state.language == lang && n.state.stored == Some(lang) && !n.state.pickerVisible
    ensures n.state.messages == s.messages + [Msg(Ai, "Language set to " + lang, lang, stamp)]
    ensures n.state.listening == s.listening && n.state.recognizer == s.recognizer
    ensures n.state.closureLang == s.closureLang
    ensures n.effects == Speak(LanguageSetSpeech, lang, p)
  {
    var notice := Msg(Ai, "Language set to " + lang, lang, stamp);
    Next(s.(language := lang, stored := Some(lang), pickerVisible := false, messages := s.messages + [notice]),
         Speak(LanguageSetSpeech, lang, p))
  }

  /** The "Change" button: shows the picker. */
  function OpenPicker(s: Session): (r: Session)
    ensures r.pickerVisible
    ensures r.(pickerVisible := s.pickerVisible) == s
  {
    s.(pickerVisible := true)
  }

  /** The talk button: stops while listening, starts otherwise. */
  function Tap(s: Session, fails: bool): (n: Next)
    ensures s.listening ==> n == Next(StopListening(s, fails), [])
    ensures !s.listening ==> n == StartListening(s, fails)
  {
    if s.listening then Next(StopListening(s, fails), []) else StartListening(s, fails)
  }

  // ---------------------------------------------------------------------------
  // Runs
  // ---------------------------------------------------------------------------

  datatype Event =
    | Transcript(raw: Option<string>, userStamp: Stamp, aiStamp: Stamp)
    | CaptureEnded
    | CaptureFailed
    | StartPressed(startThrows: bool)
    | StopPressed(stopThrows: bool)
    | LanguageChosen(lang: string, stamp: Stamp)
    | LanguageSynced
    | PickerOpened
    | Tapped(fails: bool)

  function Step(s: Session, p: Platform, e: Event): Next {
    match e
    case Transcript(raw, u, a) => OnResult(s, raw, u, a, p)
    case CaptureEnded => Next(OnCaptureClosed(s), [])
    case CaptureFailed => Next(OnCaptureClosed(s), [])
    case StartPressed(t) => StartListening(s, t)
    case StopPressed(t) => Next(StopListening(s, t), [])
    case LanguageChosen(lang, stamp) => SelectLanguage(s, lang, stamp, p)
    case LanguageSynced => Next(SyncRecognizer(s), [])
    case PickerOpened => Next(OpenPicker(s), [])
    case Tapped(t) => Tap(s, t)
  }

  /** An event together with the speech platform as it stands when the event arrives:
      the voice list is re-read whenever the browser reports a change, so it may differ
      from one event to the next. */
  datatype Moment = Moment(platform: Platform, event: Event)

  /** Events applied in order, each on the platform of its moment, with every effect they
      request. */
  function Run(s: Session, trace: seq<Moment>): Next
    decreases |trace|
  {
    if trace == [] then Next(s, [])
    else
      var first := Step(s, trace[0].platform, trace[0].event);
      var rest := Run(first.state, trace[1..]);
      Next(rest.state, first.effects + rest.effects)
  }

  /** The stored preference and the language agree: a reload restores the current
      language, unless the empty code was chosen; and a closed picker means something
      was stored. */
  ghost predicate Consistent(s: Session) {
    && (s.stored != Some("") ==> s.language == RestoredLanguage(s.stored))
    && (!s.pickerVisible ==> s.stored.Some?)
  }

  /** One event appends to the log and keeps everything fixed at start-up. */
  lemma StepKeeps(s: Session, p: Platform, e: Event)
    ensures var n := Step(s, p, e);
      && s.messages <= n.state.messages
      && n.state.closureLang == s.closureLang
      && (n.state.recognizer.Some? <==> s.recognizer.Some?)
      && (Consistent(s) ==> Consistent(n.state))
      && CancelsFirst(n.effects)
  {
  }

  lemma CancelsFirstAppend(a: seq<Effect>, b: seq<Effect>)
    requires CancelsFirst(a) && CancelsFirst(b)
    ensures CancelsFirst(a + b)
  {
    forall i | 0 <= i < |a + b| && (a + b)[i].Utter?
      ensures 0 < i && (a + b)[i - 1] == CancelSpeech
    {
      if i >= |a| { assert (a + b)[i] == b[i - |a|]; }
    }
  }

  /** Over any run, on any succession of platforms: the log only grows, the transcript
      handler's language and the presence of a recognizer never change, the stored
      preference stays consistent, and speech is always cancelled before anything new is
      uttered. */
  lemma {:induction false} RunKeeps(s: Session, trace: seq<Moment>)
    ensures var n := Run(s, trace);
      && s.messages <= n.state.messages
      && n.state.closureLang == s.closureLang
      && (n.state.recognizer.Some? <==> s.recognizer.Some?)
      && (Consistent(s) ==> Consistent(n.state))
      && CancelsFirst(n.effects)
    decreases |trace|
  {
    if trace != [] {
      var first := Step(s, trace[0].platform, trace[0].event);
      StepKeeps(s, trace[0].platform, trace[0].event);
      RunKeeps(first.state, trace[1..]);
      CancelsFirstAppend(first.effects, Run(first.state, trace[1..]).effects);
    }
  }

  /** Running two traces one after the other is running their concatenation. */
  lemma {:induction false} RunAppend(s: Session, a: seq<Moment>, b: seq<Moment>)
    ensures Run(s, a + b).state == Run(Run(s, a).state, b).state
    ensures Run(s, a + b).effects == Run(s, a).effects + Run(Run(s, a).state, b).effects
    decreases |a|
  {
    if a == [] {
      assert a + b == b;
    } else {
      var first := Step(s, a[0].platform, a[0].event);
      assert (a + b)[1..] == a[1..] + b;
      RunAppend(first.state, a[1..], b);
      var mid := Run(first.state, a[1..]);
      var fin := Run(mid.state, b);
      assert first.effects + (mid.effects + fin.effects) == (first.effects + mid.effects) + fin.effects;
    }
  }

  /** Every earlier log is a prefix of every later one: the log after any prefix of a
      trace is a prefix of the log after the whole trace. */
  lemma RunLogGrows(s: Session, trace: seq<Moment>, i: nat, j: nat)
    requires i <= j <= |trace|
    ensures Run(s, trace[..i]).state.messages <= Run(s, trace[..j]).state.messages
  {
    assert trace[..j] == trace[..i] + trace[i..j];
    RunAppend(s, trace[..i], trace[i..j]);
    RunKeeps(Run(s, trace[..i]).state, trace[i..j]);
  }

  /** A fresh session is consistent with what it was restored from. */
  lemma InitConsistent(stored: Option<string>, supported: bool, stamp: Stamp)
    ensures Consistent(Init(stored, supported, stamp))
  {
  }

  /** Choosing the same language twice logs one notice per call and otherwise leaves the
      state as the first call did. */
  lemma SelectTwice(s: Session, lang: string, t1: Stamp, t2: Stamp, p: Platform)
    ensures var once := SelectLanguage(s, lang, t1, p).state;
      var twice := SelectLanguage(once, lang, t2, p).state;
      && twice.messages == s.messages + [Msg(Ai, "Language set to " + lang, lang, t1),
                                          Msg(Ai, "Language set to " + lang, lang, t2)]
      && twice.(messages := once.messages) == once
  {
  }

  /** The transcript handler keeps the start-up language: after the user switches to
      another language, a transcript is still logged and spoken in the language the
      session started with. */
  lemma TranscriptUsesStartupLanguage(stored: Option<string>, supported: bool, stamp: Stamp,
                                      trace: seq<Moment>, text: string, u: Stamp, a: Stamp, p: Platform)
    requires !AllSpace(text, JsWhitespace)
    ensures var s0 := Init(stored, supported, stamp);
      var s := Run(s0, trace).state;
      var n := OnResult(s, Some(text), u, a, p);
      && n.state.messages[|s.messages|].lang == s0.language
      && n.state.messages[|s.messages| + 1].lang == s0.language
  {
    RunKeeps(Init(stored, supported, stamp), trace);
  }

  /** Starting in English and choosing Hindi, the next non-blank transcript is still
      stamped and spoken as "en-US" while the session language is "hi-IN", whatever voices
      have arrived since the choice. */
  lemma StaleLanguageExample(stamp: Stamp, p1: Platform, p2: Platform, text: string, u: Stamp, a: Stamp)
    requires !AllSpace(text, JsWhitespace)
    ensures var s := SelectLanguage(Init(None, true, stamp), "hi-IN", stamp, p1).state;
      var n := OnResult(s, Some(text), u, a, p2);
      && n.state.language == "hi-IN"
      && n.state.messages[2].lang == "en-US"
      && n.effects == Speak("\"" + TrimmedTranscript(Some(text)).value + "\"", "en-US", p2)
  {
    var s := SelectLanguage(Init(None, true, stamp), "hi-IN", stamp, p1).state;
    assert s.closureLang == "en-US" && s.language == "hi-IN" && |s.messages| == 2;
  }

  /** With recognition unsupported, pressing start alerts and leaves log, language and
      listening untouched. */
  lemma StartWithoutRecognizer(stored: Option<string>, stamp: Stamp, t: bool)
    ensures var s := Init(stored, false, stamp);
      StartListening(s, t) == Next(s, [Alert(NotSupported)])
  {
  }

  /** The primary subtag of "hi-IN" is "hi"; an empty code counts as "en". */
  lemma PrimarySubtagExamples()
    ensures PrimarySubtag("hi-IN") == "hi"
    ensures PrimarySubtag("") == "en"
  {
    var r := BeforeDash("hi-IN");
    assert "hi-IN"[2] == '-';
    assert |r| == 2;
    assert r == "hi-IN"[..2];
    var e := BeforeDash("en");
    assert |e| == 2;
  }

  /** "hi-IN" prefers a Hindi voice, in any case, over an earlier English one. */
  lemma ChooseVoicePrefersSubtag()
    ensures ChooseVoice("hi-IN", [Voice("us", Some("en-US")), Voice("hi", Some("HI-in"))]) == Some(Voice("hi", Some("HI-in")))
  {
    PrimarySubtagExamples();
    var vs := [Voice("us", Some("en-US")), Voice("hi", Some("HI-in"))];
    assert Lower("hi")[0] == 'h' && Lower("en-US")[0] == 'e';
    assert !VoiceMatches(vs[0], "hi");
    assert Lower("HI-in")[..2] == "hi" == Lower("hi");
    assert VoiceMatches(vs[1], "hi");
    assert IsFirstMatch(vs, 1, "hi");
  }

  /** With no Hindi voice, "hi-IN" falls back to the first English voice. */
  lemma ChooseVoiceFallsBackToEnglish()
    ensures ChooseVoice("hi-IN", [Voice("x", None), Voice("us", Some("en-US"))]) == Some(Voice("us", Some("en-US")))
  {
    PrimarySubtagExamples();
    var vs := [Voice("x", None), Voice("us", Some("en-US"))];
    assert Lower("hi")[0] == 'h' && Lower("en-US")[0] == 'e';
    assert !VoiceMatches(vs[0], "hi") && !VoiceMatches(vs[1], "hi");
    assert !AnyMatch(vs, "hi");
    assert Lower("en-US")[..2] == "en" == Lower("en");
    assert IsFirstMatch(vs, 1, "en");
  }
}
