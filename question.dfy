/**
 * The question screen: its pure helpers (the timer display, the API-key error
 * classifier, the choice of fallback data, the option letters) and its state,
 * changed step by step by fetching, saving, the timer and the answer tab.
 */
module Question {
  import opened Wrappers
  import opened Text
  import opened Navigation

  /** A question as the screen holds it; a missing `options` list is the empty one. */
  datatype QuestionData = QuestionData(question: string, answer: string, math: bool, options: seq<string>)

  /** The record handed to `saveQuestion`; `kind` is the route's `typeId`. */
  datatype SavedQuestion = SavedQuestion(topic: string, question: string, answer: string, kind: string, math: bool, options: seq<string>)

  datatype ViewMode = QuestionTab | AnswerTab

  /** The alerts the screen raises. */
  datatype Alert = NoAlert | MissingKeyAlert | KeyErrorAlert | SampleAlert | SavedAlert | LockedAlert

  /**
   * The outcome of `generateQuestion`: the parsed reply (`None` for `null` or
   * `undefined`), or a thrown error.
   */
  datatype Generation = Generated(data: Option<QuestionData>) | GenerationFailed

  /** Used when generation throws: the price-elasticity example, with mathematics. */
  const ElasticityQuestion: QuestionData := QuestionData(
    "যখন মূল্য $10 থেকে $12 বৃদ্ধি " +
    "পায় এবং চাহিদার পরিমাণ 100 থেকে " +
    "80 একক হ্রাস পায়, তখন **চাহিদার " +
    "মূল্য স্থিতিস্থাপকতা** (price " +
    "elasticity of demand) নির্ণয় " +
    "করুন। সূত্র ব্যবহার করুন: $$E_d " +
    "= \\frac{\\% \\Delta Q_d}{\\% " +
    "\\Delta P}$$",
    "**ধাপ ১:** পরিমাণের শতকরা পরিবর্তন: " +
    "$\\frac{80-100}{100} \\times 100 " +
    "= -20\\%$\n\n**ধাপ ২:** মূল্যের " +
    "শতকরা পরিবর্তন: $\\frac{12-10}{10} " +
    "\\times 100 = 20\\%$\n\n**ধাপ " +
    "৩:** স্থিতিস্থাপকতা নির্ণয়: $E_d " +
    "= \\frac{-20\\%}{20\\%} = -1$\n\n**সিদ্ধান্ত:** " +
    "চাহিদার মূল্য স্থিতিস্থাপকতা $-1$, " +
    "যা **একক স্থিতিস্থাপক চাহিদা** " +
    "নির্দেশ করে। মূল্যের 1% বৃদ্ধি " +
    "চাহিদার পরিমাণে 1% হ্রাস ঘটায়।",
    true, [])

  /** Used when generation returns no data or data without question text. */
  const DefaultQuestion: QuestionData := QuestionData(
    "What is the primary objective of **Macroeconomics**?",
    "Macroeconomics aims to understand " +
    "the behavior of the economy as " +
    "a whole, focusing on variables " +
    "like GDP, inflation, and unemployment.",
    false, [])

  /** Used when reading the key fails: the GDP example, with mathematics. */
  const SampleQuestion: QuestionData := QuestionData(
    "**GDP (Gross Domestic Product)** " +
    "কী এবং ব্যয় পদ্ধতি (expenditure " +
    "approach) ব্যবহার করে এটি কীভাবে " +
    "গণনা করা হয়? সূত্র লিখুন।",
    "**GDP** হলো একটি নির্দিষ্ট সময়ে " +
    "একটি দেশের সীমানার মধ্যে উৎপাদিত " +
    "সকল চূড়ান্ত পণ্য ও সেবার মোট " +
    "আর্থিক মূল্য।\n\n**ব্যয় পদ্ধতির " +
    "সূত্র:**\n$$GDP = C + I + G + " +
    "(X - M)$$\n\nযেখানে:\n- $C$ = " +
    "ভোক্তা ব্যয় (Consumer spending)\n- " +
    "$I$ = বিনিয়োগ (Investment)\n- " +
    "$G$ = সরকারি ব্যয় (Government " +
    "spending)\n- $X$ = রপ্তানি (Exports)\n- " +
    "$M$ = আমদানি (Imports)\n\nএই পদ্ধতি " +
    "অর্থনীতিতে সকল ব্যয়ের সমষ্টি " +
    "নির্ণয় করে।",
    true, [])

  /** The substrings that mark an error as a key problem. */
  const KeyErrorMarkers: seq<string> := ["API_KEY_INVALID", "API_KEY_EXPIRED", "forbidden", "403"]

  /**
   * JavaScript's `seconds % 60`: the remainder takes the sign of the dividend
   * (Dafny's `%` never goes negative).
   */
  function SecondsRem(seconds: int): (r: int)
    ensures seconds >= 0 ==> 0 <= r < 60
    ensures seconds < 0 ==> -60 < r <= 0
    ensures r % 60 == seconds % 60
  {
    if seconds >= 0 then seconds % 60 else -((-seconds) % 60)
  }

  /**
   * `formatTime`: whole minutes, a colon, then the seconds with a `0` in front
   * when below ten. Flooring an integer quotient by a positive divisor is
   * Dafny's `/`.
   */
  function FormatTime(seconds: int): string {
    var mins := seconds / 60;
    var secs := SecondsRem(seconds);
    IntToString(mins) + ":" + (if secs < 10 then "0" else "") + IntToString(secs)
  }

  /** The seconds part of the display: always two digits. */
  lemma SecondsDigits(secs: nat)
    requires secs < 60
    ensures var p := (if secs < 10 then "0" else "") + NatToString(secs);
      |p| == 2 && IsDigits(p) && '0' <= p[0] <= '5' && DigitsValue(p) == secs
  {
    var p := (if secs < 10 then "0" else "") + NatToString(secs);
    NatToStringValue(secs);
    if secs < 10 {
      assert p == "0" + [Digit(secs)];
      assert p[..1] == "0";
      assert DigitsValue("0"[..0]) == 0;
    } else {
      assert NatToString(secs) == NatToString(secs / 10) + [Digit(secs % 10)];
      assert p[0] == Digit(secs / 10);
    }
  }

  /**
   * For a non-negative count, the display is minutes, a colon and two digits
   * 00 to 59, the minutes have no leading zero, and the two parts read back
   * as `minutes * 60 + seconds`.
   */
  lemma FormatTimeReadsBack(s: nat)
    ensures var r := FormatTime(s);
      |r| >= 4 && r[|r| - 3] == ':' &&
      IsDigits(r[..|r| - 3]) && IsDigits(r[|r| - 2..]) &&
      '0' <= r[|r| - 2] <= '5' &&
      (r[0] == '0' ==> |r| == 4) &&
      DigitsValue(r[..|r| - 3]) * 60 + DigitsValue(r[|r| - 2..]) == s
  {
    var m := NatToString(s / 60);
    var secs := s % 60;
    var p := (if secs < 10 then "0" else "") + NatToString(secs);
    SecondsDigits(secs);
    NatToStringValue(s / 60);
    var r := FormatTime(s);
    assert r == m + ":" + p;
    assert r[..|r| - 3] == m;
    assert r[|r| - 2..] == p;
  }

  /**
   * `isKeyError`: the error has a message, and the message contains one of the
   * markers anywhere (so "4031" counts, as `includes` matches any substring).
   */
  function IsKeyError(message: Option<string>): (r: bool)
    ensures r <==> message.Some? && exists k, i :: 0 <= k < |KeyErrorMarkers| && OccursAt(message.value, KeyErrorMarkers[k], i)
  {
    match message
    case None => false
    case Some(m) =>
      var r := Contains(m, "API_KEY_INVALID") || Contains(m, "API_KEY_EXPIRED") || Contains(m, "forbidden") || Contains(m, "403");
      assert KeyErrorMarkers[0] == "API_KEY_INVALID" && KeyErrorMarkers[1] == "API_KEY_EXPIRED";
      assert KeyErrorMarkers[2] == "forbidden" && KeyErrorMarkers[3] == "403";
      r
  }

  /** The generated data is kept when it exists and has question text; otherwise the default is used. */
  function FinalData(data: Option<QuestionData>): (r: QuestionData)
    ensures r.question != ""
    ensures data.Some? && data.value.question != "" ==> r == data.value
    ensures data.None? || data.value.question == "" ==> r == DefaultQuestion && !r.math
  {
    if data.Some? && data.value.question != "" then data.value else DefaultQuestion
  }

  /** Choosing again from an already chosen question keeps it. */
  lemma FinalDataIdempotent(data: Option<QuestionData>)
    ensures FinalData(Some(FinalData(data))) == FinalData(data)
  {
  }

  /** The question shown after a successful key read: generated, defaulted, or the elasticity example. */
  function Chosen(generation: Generation): (r: QuestionData)
    ensures r.question != ""
    ensures generation.GenerationFailed? ==> r == ElasticityQuestion && r.math
  {
    match generation
    case GenerationFailed => ElasticityQuestion
    case Generated(data) => FinalData(data)
  }

  /** `String.fromCharCode(65 + idx)`: the code unit is taken modulo 2^16. */
  function OptionLabel(idx: nat): (unit: nat)
    ensures unit < 0x1_0000
    ensures (unit - idx - 65) % 0x1_0000 == 0
  {
    (65 + idx) % 0x1_0000
  }

  /** The labels of a list of options, by position. */
  function OptionLabels(options: seq<string>): (labels: seq<nat>)
    ensures |labels| == |options|
    ensures forall i :: 0 <= i < |labels| ==> labels[i] == OptionLabel(i)
  {
    seq(|options|, i requires 0 <= i => OptionLabel(i))
  }

  /** Four options are labelled A, B, C and D. */
  lemma FourOptionsABCD(options: seq<string>)
    requires |options| == 4
    ensures OptionLabels(options) == ['A' as nat, 'B' as nat, 'C' as nat, 'D' as nat]
  {
  }

  /** Labels are distinct as long as there are at most 2^16 options; the next one wraps to code 65 again. */
  lemma LabelsDistinct(options: seq<string>, i: nat, j: nat)
    requires i < j < |options| <= 0x1_0000
    ensures OptionLabels(options)[i] != OptionLabels(options)[j]
    ensures OptionLabel(0x1_0000) == OptionLabel(0)
  {
  }

  /** The answer tab and the show-answer action are refused. */
  predicate AnswerLocked(timerEnabled: bool, timeLeft: int) {
    timerEnabled && timeLeft > 0
  }

  /**
   * One mounted question screen. `ticking` says whether `timerRef` holds a live
   * interval; `saves` is what `saveQuestion` has been handed, in order.
   */
  class QuestionScreen {
    const topic: string
    const kind: string
    var questionData: Option<QuestionData>
    var loading: bool
    var showAnswer: bool
    var saved: bool
    var timerEnabled: bool
    var timeLeft: int
    var timerRunning: bool
    var ticking: bool
    var viewMode: ViewMode
    var saves: seq<SavedQuestion>

    /** The record saved for the current question. */
    function Record(q: QuestionData): SavedQuestion
      reads this
    {
      SavedQuestion(topic, q.question, q.answer, kind, q.math, q.options)
    }

    /**
     * The timer count never drops below one; an interval runs exactly when the
     * timer is marked running, and only while it is enabled; and a question
     * marked saved is the one last handed to `saveQuestion`.
     */
    ghost predicate Valid()
      reads this
    {
      timeLeft >= 1 &&
      timerRunning == ticking && (ticking ==> timerEnabled) &&
      (saved ==> questionData.Some? && saves != [] && saves[|saves| - 1] == Record(questionData.value))
    }

    /** The first render, before the mount effect fetches a question. */
    constructor (topic: string, kind: string)
      ensures this.topic == topic && this.kind == kind
      ensures questionData.None? && loading && !showAnswer && !saved
      ensures !timerEnabled && timeLeft == 1 && !timerRunning && !ticking
      ensures viewMode == QuestionTab && saves == []
      ensures Valid()
    {
      this.topic := topic;
      this.kind := kind;
      questionData := None;
      loading := true;
      showAnswer := false;
      saved := false;
      timerEnabled := false;
      timeLeft := 1;
      timerRunning := false;
      ticking := false;
      viewMode := QuestionTab;
      saves := [];
    }

    /** `stopTimer`: clear the interval and mark the timer not running. */
    method StopTimer()
      requires Valid()
      modifies this`timerRunning, this`ticking
      ensures Valid()
      ensures !timerRunning && !ticking
    {
      ticking := false;
      timerRunning := false;
    }

    /**
     * `fetchQuestion`, its awaits taken as one step. Every path resets the
     * answer and saved flags, stops the timer and ends loading. A missing key
     * raises an alert, replaces the route with onboarding and keeps the
     * question; a failed key read shows the GDP sample, with the key-error
     * alert or the status alert; otherwise the chosen question is shown and an
     * enabled timer restarts from one.
     */
    method FetchQuestion(lookup: KeyLookup, generation: Generation) returns (alert: Alert, navigate: Option<Route>)
      requires Valid()
      modifies this`questionData, this`loading, this`showAnswer, this`saved,
        this`timeLeft, this`timerRunning, this`ticking
      ensures Valid()
      ensures !loading && !showAnswer && !saved
      ensures lookup.KeyRead? && !HasKey(lookup.key) ==>
        alert == MissingKeyAlert && navigate == Some(OnboardingApiKey) &&
        questionData == old(questionData) && timeLeft == old(timeLeft) && !ticking
      ensures lookup.KeyRead? && HasKey(lookup.key) ==>
        alert == NoAlert && navigate.None? && questionData == Some(Chosen(generation)) &&
        (timerEnabled ==> timeLeft == 1 && ticking) &&
        (!timerEnabled ==> timeLeft == old(timeLeft) && !ticking)
      ensures lookup.LookupFailed? ==>
        alert == (if IsKeyError(lookup.message) then KeyErrorAlert else SampleAlert) &&
        navigate.None? && questionData == Some(SampleQuestion) &&
        timeLeft == old(timeLeft) && !ticking
    {
      loading := true;
      showAnswer := false;
      saved := false;
      StopTimer();
      navigate := None;
      match lookup {
        case LookupFailed(message) =>
          alert := if IsKeyError(message) then KeyErrorAlert else SampleAlert;
          questionData := Some(SampleQuestion);
        case KeyRead(key) =>
          if !HasKey(key) {
            alert := MissingKeyAlert;
            navigate := Some(OnboardingApiKey);
          } else {
            alert := NoAlert;
            questionData := Some(Chosen(generation));
            if timerEnabled {
              timeLeft := 1;
              timerRunning := true;
              ticking := true;
            }
          }
      }
      loading := false;
    }

    /** One firing of the interval `startTimer` schedules: count up by one. */
    method Tick()
      requires Valid()
      modifies this`timeLeft
      ensures Valid()
      ensures timeLeft == old(timeLeft) + (if ticking then 1 else 0)
    {
      if ticking {
        timeLeft := timeLeft + 1;
      }
    }

    /** The timer switch: on starts the interval, off stops it; the count is kept either way. */
    method ToggleTimer(on: bool)
      requires Valid()
      modifies this`timerEnabled, this`timerRunning, this`ticking
      ensures Valid()
      ensures timerEnabled == on && timerRunning == on && ticking == on
    {
      if on {
        timerEnabled := true;
        timerRunning := true;
        ticking := true;
      } else {
        StopTimer();
        timerEnabled := false;
      }
    }

    /** `handleSave`: nothing without a question or once saved; otherwise save it once. */
    method HandleSave() returns (alert: Alert)
      requires Valid()
      modifies this`saved, this`saves
      ensures Valid()
      ensures old(questionData.None? || saved) ==>
        alert == NoAlert && saved == old(saved) && saves == old(saves)
      ensures !old(questionData.None? || saved) ==>
        alert == SavedAlert && saved && saves == old(saves) + [Record(questionData.value)]
    {
      if questionData.None? || saved {
        return NoAlert;
      }
      saves := saves + [Record(questionData.value)];
      saved := true;
      alert := SavedAlert;
    }

    /**
     * `handleShowAnswer`: refused while the answer is locked, which, since the
     * count never drops below one, is whenever the timer is enabled.
     */
    method HandleShowAnswer() returns (alert: Alert)
      requires Valid()
      modifies this`showAnswer, this`timerRunning, this`ticking
      ensures Valid()
      ensures timerEnabled ==> alert == LockedAlert
      ensures AnswerLocked(timerEnabled, timeLeft) ==>
        alert == LockedAlert && showAnswer == old(showAnswer) &&
        timerRunning == old(timerRunning) && ticking == old(ticking)
      ensures !AnswerLocked(timerEnabled, timeLeft) ==>
        alert == NoAlert && showAnswer && !timerRunning && !ticking
    {
      if timerEnabled && timeLeft > 0 {
        return LockedAlert;
      }
      showAnswer := true;
      StopTimer();
      alert := NoAlert;
    }

    /** `onShowAnswer`, the answer tab: the same lock, then the answer view. */
    method OnShowAnswer() returns (alert: Alert)
      requires Valid()
      modifies this`viewMode, this`timerRunning, this`ticking
      ensures Valid()
      ensures timerEnabled ==> alert == LockedAlert
      ensures AnswerLocked(timerEnabled, timeLeft) ==>
        alert == LockedAlert && viewMode == old(viewMode) &&
        timerRunning == old(timerRunning) && ticking == old(ticking)
      ensures !AnswerLocked(timerEnabled, timeLeft) ==>
        alert == NoAlert && viewMode == AnswerTab && !timerRunning && !ticking
    {
      if timerEnabled && timeLeft > 0 {
        return LockedAlert;
      }
      viewMode := AnswerTab;
      StopTimer();
      alert := NoAlert;
    }

    /** The question tab. */
    method ShowQuestionTab()
      modifies this`viewMode
      ensures viewMode == QuestionTab
    {
      viewMode := QuestionTab;
    }

    /** The Next Question button: back to the question tab, then fetch. */
    method NextQuestion(lookup: KeyLookup, generation: Generation) returns (alert: Alert, navigate: Option<Route>)
      requires Valid()
      modifies this`viewMode, this`questionData, this`loading, this`showAnswer, this`saved,
        this`timeLeft, this`timerRunning, this`ticking
      ensures Valid()
      ensures viewMode == QuestionTab && !loading && !showAnswer && !saved
      ensures lookup.KeyRead? && !HasKey(lookup.key) ==>
        alert == MissingKeyAlert && navigate == Some(OnboardingApiKey) &&
        questionData == old(questionData) && timeLeft == old(timeLeft) && !ticking
      ensures lookup.KeyRead? && HasKey(lookup.key) ==>
        alert == NoAlert && navigate.None? && questionData == Some(Chosen(generation)) &&
        (timerEnabled ==> timeLeft == 1 && ticking) &&
        (!timerEnabled ==> timeLeft == old(timeLeft) && !ticking)
      ensures lookup.LookupFailed? ==>
        alert == (if IsKeyError(lookup.message) then KeyErrorAlert else SampleAlert) &&
        navigate.None? && questionData == Some(SampleQuestion) &&
        timeLeft == old(timeLeft) && !ticking
    {
      ShowQuestionTab();
      alert, navigate := FetchQuestion(lookup, generation);
    }

    /** The mount effect's cleanup. */
    method Unmount()
      requires Valid()
      modifies this`timerRunning, this`ticking
      ensures Valid()
      ensures !timerRunning && !ticking
    {
      StopTimer();
    }
  }
}
