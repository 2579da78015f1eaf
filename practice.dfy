/** The practice page (practice.js): one question's session. It rehydrates
    the question's record from the store, records an answer (the recorder,
    microphone and waveform are outside the model; their outcomes are
    parameters), has it analysed (the remote analysis is an opaque outcome),
    lets the user flag matches as favourites and writes the whole record
    `{id, audioBlob, results}` back after every analysis and every toggle. */
module Practice {
  import opened Records
  import opened JsStrings
  import opened Db

  // ---------------------------------------------------------------------
  // The timer display

  /** `mm:ss` as the timer shows it after `seconds` ticks: the minutes and
      the seconds within the minute, each padded to two digits. */
  function TimerText(seconds: nat): (t: string)
    ensures |t| >= 5
  {
    PadStart2(Decimal(seconds / 60)) + ":" + PadStart2(Decimal(seconds % 60))
  }

  /** The display is the minutes, a colon and exactly two digits holding the
      seconds within the minute (00 to 59). */
  lemma TimerTextFields(seconds: nat)
    ensures var t := TimerText(seconds); |t| >= 5 && t[|t| - 3] == ':'
    ensures var t := TimerText(seconds); IsDigits(t[..|t| - 3]) && DigitsValue(t[..|t| - 3]) == seconds / 60
    ensures var t := TimerText(seconds); IsDigits(t[|t| - 2..]) && DigitsValue(t[|t| - 2..]) == seconds % 60 < 60
  {
    var m, s := seconds / 60, seconds % 60;
    var mins := PadStart2(Decimal(m));
    var secs := PadStart2(Decimal(s));
    PadStart2Value(Decimal(m));
    PadStart2Value(Decimal(s));
    DecimalValue(m);
    DecimalValue(s);
    DecimalBelow100(s);
    assert TimerText(seconds) == mins + ":" + secs;
    ColonJoin(mins, secs);
  }

  /** The parts of `a:b` for a two-character `b`. */
  lemma ColonJoin(a: string, b: string)
    requires |b| == 2 && IsDigits(a) && IsDigits(b)
    ensures var t := a + ":" + b;
      && |t| == |a| + 3 && t[|t| - 3] == ':'
      && IsDigits(t[..|t| - 3]) && IsDigits(t[|t| - 2..])
      && DigitsValue(t[..|t| - 3]) == DigitsValue(a) && DigitsValue(t[|t| - 2..]) == DigitsValue(b)
  {
    var t := a + ":" + b;
    assert t[..|t| - 3] == a;
    assert t[|t| - 2..] == b;
  }

  /** Reads a timer display back into seconds. */
  function ParseTimer(t: string): Option<nat>
  {
    var fields := Split(t, ':');
    if |fields| == 2 && IsDigits(fields[0]) && IsDigits(fields[1])
    then Some(DigitsValue(fields[0]) * 60 + DigitsValue(fields[1]))
    else None
  }

  /** The display determines the elapsed seconds. */
  lemma TimerRoundTrip(seconds: nat)
    ensures ParseTimer(TimerText(seconds)) == Some(seconds)
  {
    var mins := PadStart2(Decimal(seconds / 60));
    var secs := PadStart2(Decimal(seconds % 60));
    PadStart2Value(Decimal(seconds / 60));
    PadStart2Value(Decimal(seconds % 60));
    DecimalValue(seconds / 60);
    DecimalValue(seconds % 60);
    DigitsExclude(mins, ':');
    DigitsExclude(secs, ':');
    SplitConcat(mins, secs, ':');
    SplitNoSep(secs, ':');
    assert TimerText(seconds) == mins + [':'] + secs;
  }

  /** `startTimer` shows `00:00`, which is the display for zero seconds. */
  lemma TimerStartsAtZero()
    ensures TimerText(0) == "00:00"
  {
  }

  // ---------------------------------------------------------------------
  // Finding the current question

  /** `questions.find(q => q.id === id)`: the first question with this id. */
  function FindIndex(qs: seq<Question>, id: string): (r: int)
    ensures -1 <= r < |qs|
    ensures r >= 0 ==> qs[r].id == id
    ensures forall j :: 0 <= j < |qs| && (r == -1 || j < r) ==> qs[j].id != id
    decreases |qs|
  {
    if qs == [] then -1
    else if qs[0].id == id then 0
    else var r := FindIndex(qs[1..], id); if r == -1 then -1 else r + 1
  }

  /** `find(...)?.question`, rejected when falsy: the text of the first
      question with this id, unless there is none or its text is empty. */
  function QuestionText(qs: seq<Question>, id: string): (r: Option<string>)
    ensures r.Some? ==> r.value != "" && exists i :: 0 <= i < |qs| && qs[i].id == id && qs[i].text == r.value
    ensures r.None? <==> (forall i :: 0 <= i < |qs| ==> qs[i].id != id) || qs[FindIndex(qs, id)].text == ""
  {
    var i := FindIndex(qs, id);
    if i == -1 || qs[i].text == "" then None else Some(qs[i].text)
  }

  // ---------------------------------------------------------------------
  // Matches: initialisation after an analysis, the favourite toggle

  /** What an analysis leaves in the session: the service's results with every
      match present and not yet favourited. */
  ghost predicate FreshlyAnalysed(given: Results, r: Results)
  {
    && r.transcription == given.transcription
    && r.refinedVersion == given.refinedVersion
    && r.matches.Some? == given.matches.Some?
    && (given.matches.Some? ==>
         && |r.matches.value| == |given.matches.value|
         && forall i :: 0 <= i < |given.matches.value| ==>
              r.matches.value[i] == given.matches.value[i].(isFavorite := false))
  }

  /** Sets `isFavorite = false` on every match, one by one. */
  method ClearFavorites(ms: seq<Match>) returns (out: seq<Match>)
    ensures |out| == |ms|
    ensures forall i :: 0 <= i < |ms| ==> out[i] == ms[i].(isFavorite := false)
  {
    out := ms;
    var i := 0;
    while i < |out|
      invariant 0 <= i <= |out| == |ms|
      invariant forall j :: 0 <= j < i ==> out[j] == ms[j].(isFavorite := false)
      invariant forall j :: i <= j < |ms| ==> out[j] == ms[j]
    {
      out := out[i := out[i].(isFavorite := false)];
      i := i + 1;
    }
  }

  /** The analysis results with their matches initialised, if there are any. */
  method InitialiseMatches(given: Results) returns (r: Results)
    ensures FreshlyAnalysed(given, r)
    ensures r.matches.Some? ==> forall i :: 0 <= i < |r.matches.value| ==> !r.matches.value[i].isFavorite
  {
    r := given;
    if given.matches.Some? {
      var ms := ClearFavorites(given.matches.value);
      r := given.(matches := Some(ms));
    }
  }

  /** The matches with one match's favourite flag negated. */
  function ToggleAt(ms: seq<Match>, i: nat): (r: seq<Match>)
    requires i < |ms|
    ensures |r| == |ms|
    ensures r[i].isFavorite == !ms[i].isFavorite && r[i].(isFavorite := ms[i].isFavorite) == ms[i]
    ensures forall j :: 0 <= j < |ms| && j != i ==> r[j] == ms[j]
  {
    ms[i := ms[i].(isFavorite := !ms[i].isFavorite)]
  }

  /** `toggleFavorite(index)` on the results: None when there is no match at
      that index (no matches, or an index outside them). */
  function ToggleResults(res: Results, index: int): (r: Option<Results>)
    ensures r.Some? <==> res.matches.Some? && 0 <= index < |res.matches.value|
    ensures r.Some? ==> r.value.transcription == res.transcription && r.value.refinedVersion == res.refinedVersion
    ensures r.Some? ==> r.value.matches == Some(ToggleAt(res.matches.value, index))
  {
    if res.matches.Some? && 0 <= index < |res.matches.value|
    then Some(res.(matches := Some(ToggleAt(res.matches.value, index))))
    else None
  }

  /** Toggling the same match twice restores the results. */
  lemma ToggleTwice(res: Results, index: int)
    requires ToggleResults(res, index).Some?
    ensures ToggleResults(ToggleResults(res, index).value, index) == Some(res)
  {
    var ms := res.matches.value;
    assert ToggleAt(ToggleAt(ms, index), index) == ms;
  }

  // ---------------------------------------------------------------------
  // The recorded audio

  /** `new Blob(audioChunks)`: the chunks' bytes, in order. */
  function Assemble(chunks: seq<Blob>): Blob
    decreases |chunks|
  {
    if chunks == [] then [] else chunks[0] + Assemble(chunks[1..])
  }

  /** A chunk delivered last ends the blob. */
  lemma {:induction false} AssembleAppend(chunks: seq<Blob>, c: Blob)
    ensures Assemble(chunks + [c]) == Assemble(chunks) + c
    decreases |chunks|
  {
    if chunks != [] {
      assert (chunks + [c])[1..] == chunks[1..] + [c];
      AssembleAppend(chunks[1..], c);
    }
  }

  /** What the analysis service returned for the audio. */
  datatype Analysis = Analysed(results: Results) | AnalysisFailed

  /** What the results container shows. */
  datatype Panel = Blank | Showing(results: Results) | ErrorShown

  const NoQuestionSelected := "No question selected. Please go to the question list."
  const QuestionNotFound := "Question not found."
  const LoadFailed := "Failed to load questions."

  /** A truthy API key. */
  predicate KeyPresent(apiKey: Option<string>)
  {
    apiKey.Some? && apiKey.value != ""
  }

  /** The page's module-level state. */
  /** While recording, the display shows the elapsed seconds. */
  predicate TimerShown(isRecording: bool, seconds: nat, timerText: string)
  {
    isRecording ==> timerText == TimerText(seconds)
  }

  class PracticeSession {
    const store: RecordStore
    var questions: seq<Question>
    /** `currentQuestionId`; the page starts with the number -1, written "-1". */
    var questionId: string
    var questionText: string
    var recordEnabled: bool
    var analyzeEnabled: bool
    var isRecording: bool
    /** The recorder was stopped and its `onstop` has not run yet. */
    var stopPending: bool
    var chunks: seq<Blob>
    var audioBlob: Option<Blob>
    var results: Option<Results>
    var panel: Panel
    var seconds: nat
    var timerText: string

    ghost predicate Valid()
      reads this, store
    {
      store.Valid() && TimerShown(isRecording, seconds, timerText)
    }

    /** The record `savePracticeData` writes. */
    ghost function CurrentRecord(): Record
      reads this
    {
      Record(questionId, audioBlob, results)
    }

    /** The question the page shows. */
    ghost function QuestionState(): (seq<Question>, string, string)
      reads this
    {
      (questions, questionId, questionText)
    }

    /** The recorder and its timer. */
    ghost function RecorderState(): (bool, bool, seq<Blob>, nat, string)
      reads this
    {
      (isRecording, stopPending, chunks, seconds, timerText)
    }

    constructor (store: RecordStore)
      requires store.Valid()
      ensures Valid() && this.store == store
      ensures questionId == "-1" && audioBlob.None? && results.None? && !isRecording && chunks == []
      ensures recordEnabled && !analyzeEnabled && !stopPending && panel == Blank && seconds == 0
    {
      this.store := store;
      questions := [];
      questionId := "-1";
      questionText := "";
      recordEnabled := true;
      analyzeEnabled := false;
      isRecording := false;
      stopPending := false;
      chunks := [];
      audioBlob := None;
      results := None;
      panel := Blank;
      seconds := 0;
      timerText := "00:00";
    }

    /** `initializeApp`: open the store, take the question feed, select the
        question named by the `id` parameter and rehydrate its record. */
    method Initialize(openOk: bool, feed: Option<seq<Question>>, idParam: Option<string>, getOk: bool)
      requires Valid()
      modifies this, store
      ensures Valid()
      ensures store.records == old(store.records) && store.handleOpen == (old(store.handleOpen) || openOk)
      ensures RecorderState() == old(RecorderState())
      ensures !store.handleOpen || feed.None? ==>
                questionText == LoadFailed && recordEnabled == old(recordEnabled) && questions == old(questions)
      ensures !store.handleOpen || feed.None? || idParam.None? ==> questionId == old(questionId)
      ensures store.handleOpen && feed.Some? ==> questions == feed.value
      ensures store.handleOpen && feed.Some? && idParam.None? ==> questionText == NoQuestionSelected && !recordEnabled
      ensures store.handleOpen && feed.Some? && idParam.Some? ==>
                questionId == idParam.value &&
                match QuestionText(feed.value, idParam.value)
                case None => questionText == QuestionNotFound && !recordEnabled
                case Some(text) => questionText == text && recordEnabled == old(recordEnabled)
      ensures !(store.handleOpen && feed.Some? && idParam.Some? && QuestionText(feed.value, idParam.value).Some?) ==>
                audioBlob == old(audioBlob) && results == old(results) && analyzeEnabled == old(analyzeEnabled) && panel == old(panel)
      ensures store.handleOpen && feed.Some? && idParam.Some? && QuestionText(feed.value, idParam.value).Some? ==>
                var stored := if getOk then Get(store.records, idParam.value) else None;
                && (if stored.Some? && stored.value.audioBlob.Some?
                    then audioBlob == stored.value.audioBlob && analyzeEnabled
                    else audioBlob == old(audioBlob) && analyzeEnabled == old(analyzeEnabled))
                && (if stored.Some? && stored.value.results.Some?
                    then results == stored.value.results && panel == Showing(stored.value.results.value)
                    else results == old(results) && panel == old(panel))
    {
      var ok := store.Open(openOk);
      if !ok || feed.None? {
        questionText := LoadFailed;
        return;
      }
      questions := feed.value;
      if idParam.None? {
        questionText := NoQuestionSelected;
        recordEnabled := false;
        return;
      }
      questionId := idParam.value;
      var text := QuestionText(questions, questionId);
      if text.None? {
        questionText := QuestionNotFound;
        recordEnabled := false;
        return;
      }
      questionText := text.value;
      LoadPracticeData(true, getOk);
    }

    /** `loadPracticeData`: rehydrate the audio and the results that the
        stored record holds; a missing record or field leaves the state as it is. */
    method LoadPracticeData(openOk: bool, getOk: bool)
      requires Valid()
      modifies this, store
      ensures Valid()
      ensures store.records == old(store.records) && store.handleOpen == (old(store.handleOpen) || openOk)
      ensures questionId == old(questionId) && questions == old(questions) && questionText == old(questionText)
      ensures RecorderState() == old(RecorderState()) && recordEnabled == old(recordEnabled)
      ensures var stored := if store.handleOpen && getOk then Get(store.records, questionId) else None;
              && (if stored.Some? && stored.value.audioBlob.Some?
                  then audioBlob == stored.value.audioBlob && analyzeEnabled
                  else audioBlob == old(audioBlob) && analyzeEnabled == old(analyzeEnabled))
              && (if stored.Some? && stored.value.results.Some?
                  then results == stored.value.results && panel == Showing(stored.value.results.value)
                  else results == old(results) && panel == old(panel))
    {
      var reply := store.Load(questionId, openOk, getOk);
      if reply.Resolved? && reply.value.Some? {
        var data := reply.value.value;
        if data.audioBlob.Some? {
          audioBlob := data.audioBlob;
          analyzeEnabled := true;
        }
        if data.results.Some? {
          results := data.results;
          panel := Showing(data.results.value);
        }
      }
    }

    /** `savePracticeData`: write the whole record, every field included. */
    method SavePracticeData(openOk: bool, putOk: bool) returns (reply: Reply<()>)
      requires Valid()
      modifies store
      ensures Valid()
      ensures store.handleOpen == (old(store.handleOpen) || openOk)
      ensures reply == if !store.handleOpen then Pending else if putOk then Resolved(()) else Rejected
      ensures store.records == if reply.Resolved? then Put(old(store.records), CurrentRecord()) else old(store.records)
    {
      reply := store.Save(Record(questionId, audioBlob, results), openOk, putOk);
    }

    /** A click on the record button: stop when recording, start otherwise. */
    method ClickRecord(supported: bool, micGranted: bool)
      requires Valid()
      modifies this
      ensures Valid()
      ensures !recordEnabled ==> unchanged(this)
      ensures recordEnabled == old(recordEnabled) && results == old(results) && QuestionState() == old(QuestionState())
      ensures recordEnabled && old(isRecording) ==>
                && !isRecording && stopPending
                && chunks == old(chunks) && seconds == old(seconds) && timerText == old(timerText)
                && audioBlob == old(audioBlob) && panel == old(panel) && analyzeEnabled == old(analyzeEnabled)
      ensures recordEnabled && !old(isRecording) && !supported ==> unchanged(this)
      ensures recordEnabled && !old(isRecording) && supported ==>
                panel == Blank && audioBlob.None? && !analyzeEnabled && stopPending == old(stopPending)
      ensures recordEnabled && !old(isRecording) && supported && !micGranted ==> RecorderState() == old(RecorderState())
      ensures recordEnabled && !old(isRecording) && supported && micGranted ==>
                isRecording && chunks == [] && seconds == 0 && timerText == "00:00"
    {
      if !recordEnabled {
        return;
      }
      if isRecording {
        StopRecording();
      } else {
        StartRecording(supported, micGranted);
      }
    }

    /** `startRecording`. Without recording support nothing changes. Otherwise
        the results shown and the previous audio are cleared before the
        microphone is requested; when it is granted the recorder and the timer
        start from zero. */
    method StartRecording(supported: bool, micGranted: bool)
      requires Valid() && !isRecording
      modifies this
      ensures Valid()
      ensures !supported ==> unchanged(this)
      ensures supported ==> panel == Blank && audioBlob.None? && !analyzeEnabled
      ensures supported && !micGranted ==> RecorderState() == old(RecorderState())
      ensures supported && micGranted ==> isRecording && chunks == [] && seconds == 0 && timerText == "00:00"
      ensures results == old(results) && QuestionState() == old(QuestionState()) && stopPending == old(stopPending)
      ensures recordEnabled == old(recordEnabled)
    {
      if !supported {
        return;
      }
      panel := Blank;
      audioBlob := None;
      analyzeEnabled := false;
      if !micGranted {
        return;
      }
      chunks := [];
      isRecording := true;
      seconds := 0;
      timerText := "00:00";
      TimerStartsAtZero();
    }

    /** `stopRecording`: stop the recorder (its `onstop` runs later) and the timer. */
    method StopRecording()
      requires Valid() && isRecording
      modifies this
      ensures Valid()
      ensures !isRecording && stopPending
      ensures audioBlob == old(audioBlob) && results == old(results) && chunks == old(chunks)
      ensures seconds == old(seconds) && timerText == old(timerText) && recordEnabled == old(recordEnabled)
      ensures panel == old(panel) && analyzeEnabled == old(analyzeEnabled) && QuestionState() == old(QuestionState())
    {
      stopPending := true;
      isRecording := false;
    }

    /** One second of the timer's interval while recording. */
    method Tick()
      requires Valid()
      modifies this
      ensures Valid()
      ensures old(isRecording) ==> seconds == old(seconds) + 1 && timerText == TimerText(seconds)
      ensures !old(isRecording) ==> unchanged(this)
      ensures isRecording == old(isRecording) && stopPending == old(stopPending) && chunks == old(chunks)
      ensures audioBlob == old(audioBlob) && results == old(results) && panel == old(panel)
      ensures analyzeEnabled == old(analyzeEnabled) && recordEnabled == old(recordEnabled)
      ensures QuestionState() == old(QuestionState())
    {
      if isRecording {
        seconds := seconds + 1;
        timerText := TimerText(seconds);
      }
    }

    /** The recorder's `ondataavailable`: the chunk is appended. */
    method DataAvailable(chunk: Blob)
      requires Valid()
      modifies this
      ensures Valid()
      ensures isRecording == old(isRecording) && stopPending == old(stopPending)
      ensures chunks == if old(isRecording) || old(stopPending) then old(chunks) + [chunk] else old(chunks)
      ensures Assemble(chunks) == if old(isRecording) || old(stopPending) then Assemble(old(chunks)) + chunk else Assemble(old(chunks))
      ensures audioBlob == old(audioBlob) && results == old(results) && panel == old(panel)
      ensures analyzeEnabled == old(analyzeEnabled) && recordEnabled == old(recordEnabled)
      ensures seconds == old(seconds) && timerText == old(timerText) && QuestionState() == old(QuestionState())
    {
      if isRecording || stopPending {
        AssembleAppend(chunks, chunk);
        chunks := chunks + [chunk];
      }
    }

    /** The recorder's `onstop`: the chunks become the current audio, which is
        analysed at once; then the chunks are cleared. */
    method RecorderStopped(apiKey: Option<string>, outcome: Analysis, openOk: bool, putOk: bool)
      requires Valid()
      modifies this, store
      ensures Valid()
      ensures !old(stopPending) ==> unchanged(this) && unchanged(store)
      ensures old(stopPending) ==> !stopPending && chunks == [] && audioBlob == Some(Assemble(old(chunks))) && analyzeEnabled
      ensures old(stopPending) && KeyPresent(apiKey) && outcome.Analysed? ==>
                results.Some? && FreshlyAnalysed(outcome.results, results.value)
      ensures !(old(stopPending) && KeyPresent(apiKey) && outcome.Analysed?) ==> results == old(results)
      ensures old(stopPending) && KeyPresent(apiKey) && outcome.Analysed? ==> panel == Showing(results.value)
      ensures old(stopPending) && KeyPresent(apiKey) && outcome.AnalysisFailed? ==> panel == ErrorShown
      ensures !(old(stopPending) && KeyPresent(apiKey)) ==> panel == old(panel)
      ensures store.handleOpen == (old(store.handleOpen) || (old(stopPending) && KeyPresent(apiKey) && outcome.Analysed? && openOk))
      ensures store.records == if old(stopPending) && KeyPresent(apiKey) && outcome.Analysed? && store.handleOpen && putOk
                               then Put(old(store.records), CurrentRecord()) else old(store.records)
      ensures QuestionState() == old(QuestionState()) && recordEnabled == old(recordEnabled)
      ensures isRecording == old(isRecording) && seconds == old(seconds) && timerText == old(timerText)
    {
      if !stopPending {
        return;
      }
      stopPending := false;
      audioBlob := Some(Assemble(chunks));
      analyzeEnabled := true;
      AnalyzeSpeech(apiKey, outcome, openOk, putOk);
      chunks := [];
    }

    /** A click on the analyse button: the current audio is analysed only if
        there is some. */
    method ClickAnalyze(apiKey: Option<string>, outcome: Analysis, openOk: bool, putOk: bool)
      requires Valid()
      modifies this, store
      ensures Valid()
      ensures !old(analyzeEnabled) || old(audioBlob).None? ==> unchanged(this) && unchanged(store)
      ensures audioBlob == old(audioBlob)
      ensures old(analyzeEnabled) && old(audioBlob).Some? && KeyPresent(apiKey) && outcome.Analysed? ==>
                results.Some? && FreshlyAnalysed(outcome.results, results.value)
      ensures !(old(analyzeEnabled) && old(audioBlob).Some? && KeyPresent(apiKey) && outcome.Analysed?) ==> results == old(results)
      ensures var runs := old(analyzeEnabled) && old(audioBlob).Some? && KeyPresent(apiKey);
              && analyzeEnabled == old(analyzeEnabled)
              && (runs && outcome.Analysed? ==> panel == Showing(results.value))
              && (runs && outcome.AnalysisFailed? ==> panel == ErrorShown)
              && (!runs ==> panel == old(panel))
              && store.handleOpen == (old(store.handleOpen) || (runs && outcome.Analysed? && openOk))
              && store.records == if runs && outcome.Analysed? && store.handleOpen && putOk
                                  then Put(old(store.records), CurrentRecord()) else old(store.records)
      ensures QuestionState() == old(QuestionState()) && RecorderState() == old(RecorderState())
      ensures recordEnabled == old(recordEnabled)
    {
      if !analyzeEnabled {
        return;
      }
      if audioBlob.Some? {
        AnalyzeSpeech(apiKey, outcome, openOk, putOk);
      }
    }

    /** `analyzeSpeech`. Without an API key nothing changes. A failed analysis
        only shows the error; a successful one replaces the results with the
        service's, every match not favourited, and saves the record. */
    method AnalyzeSpeech(apiKey: Option<string>, outcome: Analysis, openOk: bool, putOk: bool)
      requires Valid()
      modifies this, store
      ensures Valid()
      ensures !KeyPresent(apiKey) ==> unchanged(this) && unchanged(store)
      ensures KeyPresent(apiKey) ==> analyzeEnabled
      ensures KeyPresent(apiKey) && outcome.AnalysisFailed? ==> panel == ErrorShown
      ensures KeyPresent(apiKey) && outcome.Analysed? ==>
                results.Some? && FreshlyAnalysed(outcome.results, results.value) && panel == Showing(results.value)
      ensures !(KeyPresent(apiKey) && outcome.Analysed?) ==> results == old(results) && store.records == old(store.records)
      ensures KeyPresent(apiKey) && outcome.Analysed? ==>
                store.records == if store.handleOpen && putOk then Put(old(store.records), CurrentRecord()) else old(store.records)
      ensures audioBlob == old(audioBlob) && questionId == old(questionId) && chunks == old(chunks)
      ensures isRecording == old(isRecording) && stopPending == old(stopPending) && recordEnabled == old(recordEnabled)
      ensures seconds == old(seconds) && timerText == old(timerText)
      ensures questions == old(questions) && questionText == old(questionText)
      ensures store.handleOpen == (old(store.handleOpen) || (KeyPresent(apiKey) && outcome.Analysed? && openOk))
    {
      if !KeyPresent(apiKey) {
        return;
      }
      analyzeEnabled := false;
      match outcome {
        case Analysed(given) =>
          var r := InitialiseMatches(given);
          results := Some(r);
          panel := Showing(r);
          var _ := SavePracticeData(openOk, putOk);
        case AnalysisFailed =>
          panel := ErrorShown;
      }
      analyzeEnabled := true;
    }

    /** `toggleFavorite(index)`: with a match at `index`, negate its flag and
        save the record; otherwise change nothing and save nothing. */
    method ToggleFavorite(index: int, openOk: bool, putOk: bool) returns (toggled: bool)
      requires Valid()
      modifies this, store
      ensures Valid()
      ensures toggled <==> old(results).Some? && ToggleResults(old(results).value, index).Some?
      ensures !toggled ==> unchanged(this) && unchanged(store)
      ensures toggled ==> results == ToggleResults(old(results).value, index)
      ensures store.handleOpen == (old(store.handleOpen) || (toggled && openOk))
      ensures toggled ==> store.records == if store.handleOpen && putOk then Put(old(store.records), CurrentRecord()) else old(store.records)
      ensures audioBlob == old(audioBlob) && questionId == old(questionId) && panel == old(panel)
      ensures isRecording == old(isRecording) && stopPending == old(stopPending) && chunks == old(chunks)
      ensures analyzeEnabled == old(analyzeEnabled) && recordEnabled == old(recordEnabled)
      ensures seconds == old(seconds) && timerText == old(timerText)
      ensures questions == old(questions) && questionText == old(questionText)
    {
      if results.None? {
        return false;
      }
      var next := ToggleResults(results.value, index);
      if next.None? {
        return false;
      }
      results := next;
      toggled := true;
      var _ := SavePracticeData(openOk, putOk);
    }
  }
}
