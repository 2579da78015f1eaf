# opic-helper in Dafny

A model of the logic of opic-helper, a browser tool for practising spoken
answers to interview prompts. Each question has one practice record
`{id, audioBlob, results}` in an IndexedDB object store. The practice page
records an answer and has it analysed into a transcription, a refined
version and per-sentence matches. The user can star matches as favourites.
The question list page groups the questions, shows progress and exports
the answers. The favourites page lists every starred match.

The modules follow the program's files:

- `records.dfy` (`Records`): the values the pages exchange (question, highlight, match, results, record).
- `jsstrings.dfy` (`JsStrings`): the JavaScript string built-ins the pages rely on. It covers `split` with a one-character separator, `replace` with a string pattern (first occurrence, `$` patterns expanded), `toString` and `padStart(2, '0')`.
- `db.dfy` (`Db`): `db.js`. The store is a map from id to record, inside the class `RecordStore`. That class also holds the database version, whether the object store exists and the cached handle.
- `practice.dfy` (`Practice`): `practice.js`. The class `PracticeSession` holds the page's module-level state. Each handler is a method.
- `questionlist.dfy` (`QuestionList`): `index.js`. It covers the auth-token rule, grouping, labels, progress, the displayed group and the export, plus the page class `QuestionListPage`.
- `favorites.dfy` (`Favorites`): `favorite.js`. It covers collecting favourites, highlight marking, the rendered list and the fold button.

External inputs are parameters. Each is a boolean or a value the caller
chooses:

- whether an IndexedDB request succeeds;
- the question feed;
- the URL parameters;
- the outcome of the remote analysis;
- whether the browser supports recording and the microphone is granted;
- the decoded auth token and the UTC day numbers;
- `JSON.parse` of a stored practice entry.

A request awaiting a failed `openDB` yields `Pending`, a promise that
never settles. This happens because `saveData`, `loadData` and
`getAllData` await the open inside a promise executor.

## Model

| member | source | states |
|---|---|---|
| Db.Put | db.js:38 | `put` is an upsert: the key set gains `r.id`, the record under `r.id` is exactly `r` with no field merge, every other id keeps its record, and the keyPath invariant is preserved |
| Db.Get | db.js:56-59 | `get` yields the record exactly when the id is stored, and `undefined` (None) for an id never saved |
| Db.PutIdempotent | db.js:38 | writing the same record twice leaves the store as writing it once |
| Db.PutAllLastWins | db.js:33-67 | after any sequence of puts, `get(id)` yields the last record written under `id`, or the earlier contents if none was |
| Db.PutAllKeys | db.js:38 | the stored ids after a sequence of puts are the earlier ids plus the ids written |
| Db.PutAllDistinctCount | db.js:74-77 | puts of records with distinct ids into an empty store leave exactly one record per put |
| Db.ValuesOf | db.js:74-77 | `getAll` yields each stored record exactly once, and nothing that is not stored |
| Db.RecordStore.constructor | db.js:1-5 | a page load starts with no handle and no open request, over the database left by earlier visits or none |
| Db.RecordStore.Open | db.js:7-31 | a cached handle is returned without a new open request and nothing changes; otherwise one request is issued, and on success the database is upgraded and the object store created only if missing, then the handle is cached; the contents never change |
| Db.RecordStore.Save | db.js:33-49 | the reply is Pending when the open fails, Rejected when the put fails, else Resolved; the store is the upsert of the record exactly when Resolved and unchanged otherwise; one open request is issued when no handle is cached, and the version and object store are as that open leaves them |
| Db.RecordStore.Load | db.js:51-67 | resolves to the stored record or `undefined`, never changes the records; one open request is issued when no handle is cached, and the version and object store are as that open leaves them |
| Db.SaveThenLoad | db.js:33-67 | with requests that succeed, a save resolves, a load of the saved id gives back the record, and a load of an id never saved gives `undefined`; the store is the upsert of the record |
| Db.RecordStore.GetAll | db.js:69-85 | resolves to every stored record once, with distinct ids, or is Pending or Rejected as the open and the request go; the records are unchanged; one open request is issued when no handle is cached, and the version and object store are as that open leaves them |
| JsStrings.Split | index.js:10 | `split(sep)` yields at least one field and no field holds the separator |
| JsStrings.JoinSplit | index.js:10 | joining the fields of a split with the separator gives back the string |
| JsStrings.Replace | favorite.js:33 | `replace` with a pattern that does not occur returns the string unchanged; with a `$`-free replacement it substitutes the first occurrence of the pattern and nothing else |
| JsStrings.Decimal | practice.js:154-155 | `toString` yields digits without a leading zero, and a single digit exactly below 10 |
| JsStrings.DecimalValue | practice.js:154-155 | reading back `toString` gives the number |
| JsStrings.PadStart2Value | practice.js:154-155 | `padStart(2, '0')` keeps the digits' value and yields at least two characters |
| Practice.TimerText | practice.js:154-156 | the display `mm:ss` has at least five characters |
| Practice.TimerTextFields | practice.js:149-157 | the display is the minutes, a colon, then exactly two digits whose value is `seconds mod 60`, so below 60; the minutes' value is `seconds div 60` |
| Practice.TimerRoundTrip | practice.js:153-156 | the display read back as `mm:ss` gives the elapsed seconds |
| Practice.TimerStartsAtZero | practice.js:150-151 | the reset text `00:00` is the display for zero seconds |
| Practice.FindIndex | practice.js:42 | `find` yields the first question with the id, or none when no question has it |
| Practice.QuestionText | practice.js:42-48 | the question's text is used exactly when a question with the id exists and its text is non-empty; otherwise "Question not found" |
| Practice.ClearFavorites | practice.js:261-263 | every match gets `isFavorite = false` and is otherwise kept, in place and in order |
| Practice.InitialiseMatches | practice.js:260-264 | fresh results keep the service's fields, and every match is present and not favourited |
| Practice.ToggleAt | practice.js:315 | only the chosen match's flag is negated; every other match and every other field is unchanged |
| Practice.ToggleResults | practice.js:312-315 | with a match at the index the results differ only in that match's flag; with no match there (no matches, or an index outside them) nothing happens |
| Practice.ToggleTwice | practice.js:312-315 | toggling the same index twice restores the results |
| Practice.AssembleAppend | practice.js:119-124 | a chunk delivered last ends the assembled blob |
| Practice.PracticeSession.constructor | practice.js:11-20 | the session starts on question -1 with no audio, no results, idle recorder and zero seconds |
| Practice.PracticeSession.Initialize | practice.js:22-56 | the store is opened exactly when the open succeeds or a handle was cached; a failed open or feed shows "Failed to load questions."; no `id` shows "No question selected" and disables recording; an unknown question or one with empty text shows "Question not found." and disables recording; only a found question rehydrates its record, taking the stored audio (and enabling analysis) and the stored results (and showing them) when the record has them; every other path leaves audio, results, panel and the analyse button as they were, and the recorder and timer are never touched |
| Practice.PracticeSession.LoadPracticeData | practice.js:58-72 | with no stored record nothing changes; the audio (and the analyse button) is taken only if the record has audio, the results (and their display) only if it has results; the question, the recorder and the timer are untouched |
| Practice.PracticeSession.SavePracticeData | practice.js:74-81 | the record written is always `{id, audioBlob, results}` of the current state, all three fields |
| Practice.PracticeSession.ClickRecord | practice.js:83-89 | ignored while the button is disabled; while recording it has the effects of `stopRecording`, otherwise those of `startRecording`, each with the rest of the session unchanged |
| Practice.PracticeSession.StartRecording | practice.js:99-138 | without support nothing changes; otherwise the results shown and the current audio are cleared and analysis disabled; without the microphone the recorder and timer are untouched, with it the chunks are emptied and the timer restarts at `00:00`; results and the question are never touched |
| Practice.PracticeSession.StopRecording | practice.js:140-147 | stopping clears `isRecording` and leaves the recorder's stop event pending; everything else, audio and results included, is kept |
| Practice.PracticeSession.Tick | practice.js:152-157 | each tick while recording adds one second and shows its `mm:ss` display; nothing else changes, and a tick while idle changes nothing |
| Practice.PracticeSession.DataAvailable | practice.js:119-121 | chunks delivered while the recorder runs (or its stop is pending) are appended, so the assembled audio grows by the chunk; nothing else changes |
| Practice.PracticeSession.RecorderStopped | practice.js:123-131 | the stop event makes the assembled chunks the current audio, enables analysis, analyses it (results and panel as `analyzeSpeech` leaves them, the store opened only for a successful analysis) and empties the chunks; the record is written under the unchanged question id; without a pending stop nothing changes |
| Practice.PracticeSession.ClickAnalyze | practice.js:91-97 | analysis runs only when the button is enabled and there is current audio; then a success shows the new results and writes the whole record, a failure shows the error; otherwise nothing changes; the analyse button and the audio end as they were |
| Practice.PracticeSession.AnalyzeSpeech | practice.js:185-276 | without an API key nothing changes; a failure shows the error and keeps the results, the audio and the store; a success installs the results with every match unfavourited, opens the store and writes the whole record |
| Practice.PracticeSession.ToggleFavorite | practice.js:312-322 | with a match at the index its flag is negated, the store opened and the whole record saved, and nothing else in the session changes; otherwise nothing changes and nothing is saved |
| QuestionList.Fallback | index.js:30-32 | a falsy key from the token step is replaced by the stored key, or null when none is stored |
| QuestionList.TokenStepAsWritten | index.js:10-21 | an expired token changes nothing; a current one writes only `gemini_api_key`, with the second `:` field when there is one (colon-free, and then the key) and with "undefined" when there is none |
| QuestionList.LoadApiKeyAsWritten | index.js:7-32 | as written, the resolution agrees with the intended one except on a current token without a key, which overwrites the stored key with "undefined" or "" and makes that the page's key |
| QuestionList.LoadApiKey | index.js:7-32 | storage either stays as it is, and the page's key is the stored one, or gains a non-empty, colon-free key that becomes the page's key |
| QuestionList.KeylessTokenStoresUndefined | index.js:10-21 | any current decoded token with no `:` (such as `2026-10-14`) replaces the stored key with "undefined" and makes that the page's key, while the intended rule leaves storage unchanged |
| QuestionList.SecondField | index.js:10 | the second `:` field of `date:key[:...]` is `key` and the first is `date` |
| QuestionList.TokenAccepted | index.js:10-21 | a current token `date:key` stores `key` and makes it the page's key |
| QuestionList.TokenRejected | index.js:19-32 | an expired or undecodable token leaves storage untouched and the stored key is used |
| QuestionList.GroupId | index.js:81 | the group id is the id's first five characters, or the whole id when shorter |
| QuestionList.GroupQuestions | index.js:79-88 | each group id maps to exactly its members in input order, and the ids are listed in order of first appearance |
| QuestionList.MembersHaveGroupId | index.js:81-85 | every member of a group has that group's id |
| QuestionList.MembersConcat | index.js:80-87 | grouping preserves input order: the group of a concatenation is the concatenation of the groups |
| QuestionList.EveryQuestionGrouped | index.js:80-87 | every question lies in the group of its own id, and that group is listed |
| QuestionList.GroupOrderDistinct | index.js:82-84 | each group id is listed once |
| QuestionList.UnlistedGroupEmpty | index.js:82-85 | an unlisted group id has no members |
| QuestionList.FirstGroup | index.js:71 | the first listed group is the first question's |
| QuestionList.GroupsPartition | index.js:79-88 | the group sizes add up to the number of questions, so each question is in exactly one group |
| QuestionList.GroupLabel | index.js:107 | the label has the id's length, and an id without `_` is its own label |
| QuestionList.GroupLabelChars | index.js:107 | the label keeps the id's length and replaces only its first `_` with a space |
| QuestionList.CountDone | index.js:47-54 | the count is the number of questions whose practice key is present |
| QuestionList.DoneCountBounds | index.js:49-54 | `0 <= doneCount <= total`, 0 exactly when no question is done and total exactly when all are |
| QuestionList.ProgressText | index.js:55 | the text's two `/` fields are digits that read back as the done count and the total |
| QuestionList.ProgressPercent | index.js:56 | the percentage is 0 without questions, between 0 and 100, and 100 when all are done |
| QuestionList.GroupDoneFlags | index.js:110-127 | each question of the group is marked done exactly when its key is present, and `hasPracticeData` holds exactly when one is |
| QuestionList.RowOf | index.js:145-154 | a row carries the question text, transcription and refined version, plus the audio link `audio/question_<id>.webm` exactly when audio is included and the entry has a data URL |
| QuestionList.AudioFileNameParts | index.js:152 | the audio file name is `question_<id>.webm` and gives back the id |
| QuestionList.ExportRowsDefined | index.js:141-157 | export succeeds exactly when every question with data has a parsable entry with results |
| QuestionList.ExportRowsContents | index.js:141-157 | a successful export yields one row per question with data, in list order, each projected from that question's entry |
| QuestionList.ExportRowsCrashSticks | index.js:141-144 | once a stored entry fails to parse, the whole export fails |
| QuestionList.ExportRows | index.js:141-157 | the loop computes the export rows, or the failure |
| QuestionList.PayloadOfDataUrl | index.js:184 | the zipped payload is the second comma-separated field of the data URL |
| QuestionList.AudioEntries | index.js:178-188 | the archive gets one file per question with data whose entry has a data URL |
| QuestionList.LinksMatchArchive | index.js:151-186 | with audio included, the rows link exactly the files the archive holds, in the same order |
| QuestionList.DownloadAll | index.js:137-192 | a parse failure aborts; no rows gives the "no results" alert; otherwise a spreadsheet of the rows, or with audio an archive that also holds the audio files |
| QuestionList.QuestionListPage.constructor | index.js:1-32 | the page starts with the key and storage left by the token rule as written (including its "undefined" write) |
| QuestionList.QuestionListPage.LoadQuestions | index.js:60-77 | the feed is grouped, one selector option per group is added, and the first question's group is shown (its questions marked done exactly when their key is present, the download button enabled exactly when one is) and progress counted; an empty or failed feed shows "Failed to load questions."; a failed feed changes nothing else, an empty one also empties the title and the list but leaves the download button and progress as they were |
| QuestionList.SelectorOptions | index.js:90-97 | one option per group id, in order, whose value is the id and whose label has the id's length and is the id itself when it has no `_` |
| QuestionList.QuestionListPage.DisplayGroup | index.js:99-131 | the group is listed under its label, with each question marked done exactly when its key is present, and the download button is enabled exactly when one is done; an unknown group clears the list and fails |
| QuestionList.QuestionListPage.UpdateProgressBar | index.js:47-58 | the progress text and width are those of the done count over all questions |
| Favorites.CollectFavorites | favorite.js:10-21 | the loops collect the starred matches of all records, in record order then match order, each tagged with its record's id |
| Favorites.MatchFavoritesSound | favorite.js:12-18 | every favourite of a match list is a starred match of that list, tagged with the given id |
| Favorites.MatchFavoritesComplete | favorite.js:12-18 | every starred match of the list is among its favourites |
| Favorites.FavoritesSound | favorite.js:10-21 | every favourite is a starred match of some record, tagged with that record's id |
| Favorites.FavoritesComplete | favorite.js:10-21 | every starred match of every record with matches is a favourite with that record's id |
| Favorites.FavoritesConcat | favorite.js:10-21 | favourites follow record order: those of consecutive runs of records are concatenated |
| Favorites.MatchFavoritesConcat | favorite.js:12-19 | within a record, favourites follow match order |
| Favorites.RecordWithoutMatches | favorite.js:11 | a record without results or matches contributes nothing |
| Favorites.FavoritesEmpty | favorite.js:23-26 | the list is empty exactly when no record has a starred match |
| Favorites.TwoRecordsExample | favorite.js:10-21 | record A with one starred and one plain match, then B with none starred, give exactly A's starred match tagged "A" |
| Favorites.ApplyHighlights | favorite.js:30-35 | without highlights the refined version is unchanged; otherwise each highlight is applied in order to the string the previous ones produced |
| Favorites.HighlightedConcat | favorite.js:32-34 | highlights in two runs are the highlights applied in order |
| Favorites.MarkFirst | favorite.js:33 | a highlight whose text has no `$` wraps the first occurrence of its text in `<mark>`, and only that one |
| Favorites.MarkAbsent | favorite.js:33 | a highlight whose text does not occur changes nothing |
| Favorites.Highlighted | favorite.js:30-35 | no highlights leave the sentence as it is, and one highlight is one `replace` of its text by the marked text |
| Favorites.Render | favorite.js:23-49 | the empty-list message is shown exactly when there is no favourite; otherwise one card per favourite, in order, with its id, transcription and marked sentence |
| Favorites.LoadPage | favorite.js:6-72 | the store is opened exactly when the open succeeds or a handle was cached; a failed request shows the error message, an open that never settles shows nothing, and otherwise the list is rendered for some order of the stored records: the empty message exactly when no stored record has a favourite, else one card per favourite in record order and, within a record, match order; the store is unchanged |
| Favorites.FavoritesMembers | favorite.js:10-21 | a favourite of the list is a favourite of one of its records, and conversely |
| Favorites.StoredFavorites | favorite.js:6-21 | the favourites of the records `getAll` yields are those of the stored records, and there are none exactly when no stored record has one |
| Favorites.StoredCards | favorite.js:6-49 | the rendered cards are exactly the cards of the stored records' favourites |
| Favorites.FoldTwice | favorite.js:57-63 | a click makes the display `block` from `none` and `none` otherwise, and two clicks restore `none` or `block` |
| Favorites.MatchCard.constructor | favorite.js:41-43 | a card starts folded, with the down glyph |
| Favorites.MatchCard.ClickFold | favorite.js:51-67 | a click flips the transcription between `none` and `block` and sets the matching glyph |
| Favorites.ClickTwice | favorite.js:57-63 | two clicks leave the card's display and glyph as they were |

## Left out

- `sw.js`, the service worker, is not part of this model. It is a cache over `fetch`, which is pure I/O.
- The Gemini upload and generate-content requests and the parsing of their JSON (practice.js:185-258) are not modelled. Their outcome is the input `Analysis = Analysed(results) | AnalysisFailed`.
- The API key the practice page reads from `localStorage` is also a parameter.
- MediaRecorder, `getUserMedia`, the AudioContext and the waveform `visualize` loop are not modelled. They are browser media APIs. Their outcomes are booleans, chunks and the stop event.
- The `getUserMedia` rejection that `startRecording` does not catch is one input, "microphone not granted".
- DOM rendering is out: `displayResults`, the HTML strings, `innerHTML`, `classList` and button states beyond the enabled flags.
- Which page shows what is kept as plain state (title, done flags, panel, selector options, cards).
- XLSX and JSZip serialisation and the download link (index.js:159-206) are foreign libraries. The model stops at the rows and the audio files they receive.
- Hyperlinking the audio cells is part of those libraries and is not modelled.
- `atob`, `decodeURIComponent`, `new Date` parsing, `fetch('questions.json')` and `JSON.parse` are parameters. They are a decoded string, a day number or None on failure, and a parsed entry or None where it throws.
- Concurrency is not modelled. `openDB` has no single-flight sharing: two calls made before the first succeeds each issue an open request (db.js:7-31). In the model a call sees the handle cached by any earlier one.
- Db.ValuesOf: the order of `getAll` (IndexedDB key order) is not modelled. The result is some order of the stored records.
- QuestionList.GroupQuestions: `for...in` lists integer-like keys first, in numeric order. The model lists groups in order of first appearance, which is the JavaScript order only assuming no group id is integer-like.
- QuestionList.GroupId: `substring(0, 5)` counts UTF-16 code units; the model takes the first five characters (Unicode scalar values), so it differs for ids with characters outside the Basic Multilingual Plane in their first five.
- Matches that are present but not an array (practice.js:260) are not modelled. `matches` is either absent or a sequence.
- Favorites.Favorite: a match is assumed to carry no `questionId` field of its own; in `{questionId: record.id, ...match}` (favorite.js:14-17) such a field would override the record's id, which the model does not capture.
- Favorites.MarkFirst: a `$` in a highlight text is expanded by `replace` as a replacement pattern (`Highlighted` computes that expansion through `JsStrings.Substitution`); the contract of MarkFirst is stated only for `$`-free texts.
- Practice.PracticeSession.constructor: the initial question id is the number -1. It is written here as the string "-1".
- QuestionList.ProgressPercent: computed exactly as a real. The page computes it in floating point.
- The initial enabled state of the page's buttons comes from HTML outside the source. It is taken as record enabled and analyse disabled.
- The export reads `localStorage` entries `opic_practice_<id>`, which the practice page never writes. Their link to the IndexedDB records is not modelled.
- The export has no favourites table: its rows come from the question list and `localStorage` alone (index.js:137-192).
- An invalid favourite index is ignored (practice.js:313-314): nothing changes and nothing is saved.
- Stopping a recording does not write the record: it is written only after a successful analysis or a favourite toggle (practice.js:123-131, 268, 320).

## Findings

| source | as written | input that shows it | evidently intended | confidence | as-written member | corrected member |
|---|---|---|---|---|---|---|
| index.js:10-21 | a token whose date is current is accepted whatever its second `:` field is: without one, `localStorage.setItem` stores the string "undefined", and with an empty one it stores "" | the auth token, once decoded, is `2026-10-14` (no `:`), visited on that day while the key `stored-key` is stored | only a non-empty key from the token replaces the stored key; otherwise the stored key is used | not executed | QuestionList.KeylessTokenStoresUndefined | QuestionList.LoadApiKey |

`QuestionListPage` follows the code as written, through `LoadApiKeyAsWritten`.
`LoadApiKey` is the corrected rule; `LoadApiKeyAsWritten` is proved to agree
with it on every input except a current token without a key.
