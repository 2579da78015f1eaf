/** The question list page (index.js): it takes the API key from a dated
    auth token, groups the questions by the first five characters of their
    id, shows one group at a time with its practised questions marked,
    counts progress and exports the practised answers. It reads practice
    entries `opic_practice_<id>` from the browser's key-value storage, which
    is its own map here and is not the record store of the practice page. */
module QuestionList {
  import opened Records
  import opened JsStrings

  /** `localStorage`: string keys to string values. */
  type Storage = map<string, string>

  const ApiKeyName := "gemini_api_key"

  /** The storage key of a question's practice entry. */
  function PracticeKey(id: string): string
  {
    "opic_practice_" + id
  }

  // ---------------------------------------------------------------------
  // The API key: from a dated auth token, else from storage

  /** The outcome of the token step: the key variable (None: undefined or
      null) and the storage after it. */
  datatype TokenStep = TokenStep(key: Option<string>, storage: Storage)

  /** The page's API key after load, and the storage it leaves. */
  datatype AuthResult = AuthResult(apiKey: Option<string>, storage: Storage)

  /** A truthy string value. */
  predicate Truthy(v: Option<string>)
  {
    v.Some? && v.value != ""
  }

  /** `if (!geminiApiKey) geminiApiKey = localStorage.getItem(...)`. */
  function Fallback(step: TokenStep): (r: AuthResult)
    ensures r.storage == step.storage
    ensures Truthy(step.key) ==> r.apiKey == step.key
    ensures !Truthy(step.key) ==> r.apiKey == if ApiKeyName in step.storage then Some(step.storage[ApiKeyName]) else None
  {
    if Truthy(step.key) then AuthResult(step.key, step.storage)
    else AuthResult(if ApiKeyName in step.storage then Some(step.storage[ApiKeyName]) else None, step.storage)
  }

  /** The token's date (its first `:` field) names today or a later UTC day;
      `dayOf` gives the UTC day of a date string, None for an invalid date. */
  predicate Current(decoded: string, dayOf: string -> Option<int>, today: int)
  {
    var day := dayOf(Split(decoded, ':')[0]);
    day.Some? && day.value >= today
  }

  /** The token step as index.js writes it: a current token stores its second
      `:` field under `gemini_api_key`; when there is no second field the
      variable is `undefined` and storage receives the string "undefined". */
  function TokenStepAsWritten(decoded: string, dayOf: string -> Option<int>, today: int, storage: Storage): (r: TokenStep)
    ensures !Current(decoded, dayOf, today) ==> r == TokenStep(None, storage)
    ensures Current(decoded, dayOf, today) ==>
              && ApiKeyName in r.storage
              && r.storage == storage[ApiKeyName := r.storage[ApiKeyName]]
              && (r.key.Some? <==> |Split(decoded, ':')| >= 2)
              && (r.key.None? ==> r.storage[ApiKeyName] == "undefined")
    ensures r.key.Some? ==>
              && |Split(decoded, ':')| >= 2 && r.key.value == Split(decoded, ':')[1]
              && ':' !in r.key.value && ApiKeyName in r.storage && r.storage[ApiKeyName] == r.key.value
  {
    var fields := Split(decoded, ':');
    if Current(decoded, dayOf, today) then
      var key := if |fields| >= 2 then Some(fields[1]) else None;
      TokenStep(key, storage[ApiKeyName := if key.Some? then key.value else "undefined"])
    else TokenStep(None, storage)
  }

  /** The token step as intended: a current token stores its key only when
      it carries a non-empty second `:` field. */
  function TokenStepFixed(decoded: string, dayOf: string -> Option<int>, today: int, storage: Storage): TokenStep
  {
    var fields := Split(decoded, ':');
    if Current(decoded, dayOf, today) && |fields| >= 2 && fields[1] != "" then
      TokenStep(Some(fields[1]), storage[ApiKeyName := fields[1]])
    else TokenStep(None, storage)
  }

  /** A current token, decoded, whose second `:` field is missing or empty. */
  predicate KeylessCurrentToken(authToken: Option<string>, decode: string -> Option<string>,
                                dayOf: string -> Option<int>, today: int)
  {
    && Truthy(authToken) && decode(authToken.value).Some?
    && Current(decode(authToken.value).value, dayOf, today)
    && var fields := Split(decode(authToken.value).value, ':');
       |fields| < 2 || fields[1] == ""
  }

  /** The page's key resolution as written. `authToken` is the URL parameter
      and `decode` is `atob(decodeURIComponent(.))`, None where it throws.
      It agrees with the intended resolution except on a current token
      without a key, which overwrites the stored key with "undefined" or ""
      and makes that string the page's key. */
  function LoadApiKeyAsWritten(authToken: Option<string>, decode: string -> Option<string>,
                               dayOf: string -> Option<int>, today: int, storage: Storage): (r: AuthResult)
    ensures !KeylessCurrentToken(authToken, decode, dayOf, today) ==> r == LoadApiKey(authToken, decode, dayOf, today, storage)
    ensures KeylessCurrentToken(authToken, decode, dayOf, today) ==>
              && ApiKeyName in r.storage && (r.storage[ApiKeyName] == "undefined" || r.storage[ApiKeyName] == "")
              && r.storage == storage[ApiKeyName := r.storage[ApiKeyName]]
              && r.apiKey == Some(r.storage[ApiKeyName])
  {
    if Truthy(authToken) && decode(authToken.value).Some?
    then Fallback(TokenStepAsWritten(decode(authToken.value).value, dayOf, today, storage))
    else Fallback(TokenStep(None, storage))
  }

  /** The page's key resolution with the token step as intended: storage
      either stays as it is or gains a non-empty, colon-free key, which is
      then the page's key; otherwise the page's key is the stored one. */
  function LoadApiKey(authToken: Option<string>, decode: string -> Option<string>,
                      dayOf: string -> Option<int>, today: int, storage: Storage): (r: AuthResult)
    ensures r.storage == storage ==> r.apiKey == if ApiKeyName in storage then Some(storage[ApiKeyName]) else None
    ensures r.storage != storage ==>
              && ApiKeyName in r.storage && r.storage[ApiKeyName] != "" && ':' !in r.storage[ApiKeyName]
              && r.storage == storage[ApiKeyName := r.storage[ApiKeyName]]
              && r.apiKey == Some(r.storage[ApiKeyName])
  {
    if Truthy(authToken) && decode(authToken.value).Some?
    then Fallback(TokenStepFixed(decode(authToken.value).value, dayOf, today, storage))
    else Fallback(TokenStep(None, storage))
  }

  /** As written, a current token without a `:` (for instance the decoded
      token `2026-10-14` on that day) replaces the stored key with the string
      "undefined", which then becomes the page's key; the intended rule
      leaves storage as it is. */
  lemma KeylessTokenStoresUndefined(authToken: string, decode: string -> Option<string>,
                                    dayOf: string -> Option<int>, today: int, storage: Storage)
    requires authToken != "" && decode(authToken).Some?
    requires var d := decode(authToken).value; ':' !in d && dayOf(d).Some? && dayOf(d).value >= today
    ensures var r := LoadApiKeyAsWritten(Some(authToken), decode, dayOf, today, storage);
            r.storage == storage[ApiKeyName := "undefined"] && r.apiKey == Some("undefined")
    ensures LoadApiKey(Some(authToken), decode, dayOf, today, storage).storage == storage
  {
    var d := decode(authToken).value;
    SplitNoSep(d, ':');
    assert Current(d, dayOf, today);
    var step := TokenStepAsWritten(d, dayOf, today, storage);
    assert step.key.None? && step.storage[ApiKeyName] == "undefined";
  }

  /** The second `:` field of `date:key...` is `key`. */
  lemma {:induction false} SecondField(date: string, key: string, suffix: string)
    requires ':' !in date && ':' !in key
    requires suffix == [] || suffix[0] == ':'
    ensures |Split(date + [':'] + key + suffix, ':')| >= 2
    ensures Split(date + [':'] + key + suffix, ':')[0] == date
    ensures Split(date + [':'] + key + suffix, ':')[1] == key
  {
    assert date + [':'] + key + suffix == date + [':'] + (key + suffix);
    SplitConcat(date, key + suffix, ':');
    if suffix == [] {
      assert key + suffix == key;
      SplitNoSep(key, ':');
    } else {
      assert key + suffix == key + [':'] + suffix[1..];
      SplitConcat(key, suffix[1..], ':');
    }
  }

  /** A current token `date:key` (possibly with further fields) makes `key`
      the page's key and stores it. */
  lemma TokenAccepted(authToken: string, decode: string -> Option<string>, dayOf: string -> Option<int>,
                      today: int, storage: Storage, date: string, key: string, suffix: string)
    requires authToken != "" && decode(authToken) == Some(date + [':'] + key + suffix)
    requires ':' !in date && ':' !in key && key != ""
    requires suffix == [] || suffix[0] == ':'
    requires dayOf(date).Some? && dayOf(date).value >= today
    ensures LoadApiKey(Some(authToken), decode, dayOf, today, storage) == AuthResult(Some(key), storage[ApiKeyName := key])
  {
    SecondField(date, key, suffix);
  }

  /** A token that is not current, or does not decode, leaves storage as it
      is, and the page uses the key stored before. */
  lemma TokenRejected(authToken: string, decode: string -> Option<string>, dayOf: string -> Option<int>,
                      today: int, storage: Storage)
    requires decode(authToken).None? || !Current(decode(authToken).value, dayOf, today)
    ensures LoadApiKey(Some(authToken), decode, dayOf, today, storage)
         == AuthResult(if ApiKeyName in storage then Some(storage[ApiKeyName]) else None, storage)
    ensures LoadApiKeyAsWritten(Some(authToken), decode, dayOf, today, storage)
         == LoadApiKey(Some(authToken), decode, dayOf, today, storage)
  {
  }

  // ---------------------------------------------------------------------
  // Grouping the questions

  /** `id.substring(0, 5)`. */
  function GroupId(id: string): (g: string)
    ensures |g| == if |id| < 5 then |id| else 5
    ensures g <= id
  {
    if |id| <= 5 then id else id[..5]
  }

  /** The questions of group `g`, in input order. */
  function Members(qs: seq<Question>, g: string): seq<Question>
    decreases |qs|
  {
    if qs == [] then []
    else Members(qs[..|qs| - 1], g) + if GroupId(qs[|qs| - 1].id) == g then [qs[|qs| - 1]] else []
  }

  /** The group ids in order of first appearance (the object's key order). */
  function GroupOrder(qs: seq<Question>): seq<string>
    decreases |qs|
  {
    if qs == [] then []
    else
      var order := GroupOrder(qs[..|qs| - 1]);
      var g := GroupId(qs[|qs| - 1].id);
      if g in order then order else order + [g]
  }

  predicate Distinct(keys: seq<string>)
  {
    forall i, j :: 0 <= i < j < |keys| ==> keys[i] != keys[j]
  }

  /** `groupQuestions`: one pass over the questions, appending each to its
      group's list and creating a list the first time a group id is seen. */
  method GroupQuestions(qs: seq<Question>) returns (groups: map<string, seq<Question>>, order: seq<string>)
    ensures order == GroupOrder(qs)
    ensures forall g :: g in groups <==> g in order
    ensures forall g :: g in groups ==> groups[g] == Members(qs, g)
  {
    groups, order := map[], [];
    var i := 0;
    while i < |qs|
      invariant 0 <= i <= |qs|
      invariant order == GroupOrder(qs[..i])
      invariant forall g :: g in groups <==> g in order
      invariant forall g :: g in groups ==> groups[g] == Members(qs[..i], g)
      invariant forall g :: g !in groups ==> Members(qs[..i], g) == []
    {
      var q := qs[i];
      var g := GroupId(q.id);
      assert qs[..i + 1][..i] == qs[..i];
      if g !in groups {
        groups := groups[g := []];
        order := order + [g];
      }
      groups := groups[g := groups[g] + [q]];
      i := i + 1;
    }
    assert qs[..i] == qs;
  }

  /** Every member of a group has that group's id. */
  lemma {:induction false} MembersHaveGroupId(qs: seq<Question>, g: string)
    ensures forall i :: 0 <= i < |Members(qs, g)| ==> GroupId(Members(qs, g)[i].id) == g
    decreases |qs|
  {
    if qs != [] {
      MembersHaveGroupId(qs[..|qs| - 1], g);
    }
  }

  /** Grouping preserves order: the group of a concatenation is the
      concatenation of the groups. */
  lemma {:induction false} MembersConcat(a: seq<Question>, b: seq<Question>, g: string)
    ensures Members(a + b, g) == Members(a, g) + Members(b, g)
    decreases |b|
  {
    if b != [] {
      var b' := b[..|b| - 1];
      assert (a + b)[..|a + b| - 1] == a + b';
      MembersConcat(a, b', g);
    } else {
      assert a + b == a;
    }
  }

  /** Every question is in the group of its own id, and that group is listed. */
  lemma {:induction false} EveryQuestionGrouped(qs: seq<Question>, i: int)
    requires 0 <= i < |qs|
    ensures qs[i] in Members(qs, GroupId(qs[i].id))
    ensures GroupId(qs[i].id) in GroupOrder(qs)
    decreases |qs|
  {
    if i < |qs| - 1 {
      EveryQuestionGrouped(qs[..|qs| - 1], i);
    }
  }

  /** The first group listed is the first question's. */
  lemma {:induction false} FirstGroup(qs: seq<Question>)
    requires qs != []
    ensures GroupOrder(qs) != [] && GroupOrder(qs)[0] == GroupId(qs[0].id)
    decreases |qs|
  {
    if |qs| > 1 {
      var front := qs[..|qs| - 1];
      FirstGroup(front);
      assert front[0] == qs[0];
    }
  }

  /** The group ids are listed once each. */
  lemma {:induction false} GroupOrderDistinct(qs: seq<Question>)
    ensures Distinct(GroupOrder(qs))
    decreases |qs|
  {
    if qs != [] {
      GroupOrderDistinct(qs[..|qs| - 1]);
    }
  }

  /** A group id that is not listed has no members. */
  lemma {:induction false} UnlistedGroupEmpty(qs: seq<Question>, g: string)
    requires g !in GroupOrder(qs)
    ensures Members(qs, g) == []
    decreases |qs|
  {
    if qs != [] {
      var front := qs[..|qs| - 1];
      assert GroupOrder(front) <= GroupOrder(qs);
      UnlistedGroupEmpty(front, g);
    }
  }

  /** The total size of the groups named by `keys`. */
  function GroupSizes(qs: seq<Question>, keys: seq<string>): nat
    decreases |keys|
  {
    if keys == [] then 0 else |Members(qs, keys[0])| + GroupSizes(qs, keys[1..])
  }

  lemma {:induction false} GroupSizesAppend(qs: seq<Question>, keys: seq<string>, g: string)
    ensures GroupSizes(qs, keys + [g]) == GroupSizes(qs, keys) + |Members(qs, g)|
    decreases |keys|
  {
    if keys != [] {
      assert (keys + [g])[1..] == keys[1..] + [g];
      GroupSizesAppend(qs, keys[1..], g);
    }
  }

  /** Adding one question grows exactly the group of its id, by one. */
  lemma {:induction false} GroupSizesStep(qs: seq<Question>, keys: seq<string>)
    requires qs != [] && Distinct(keys)
    ensures GroupSizes(qs, keys) == GroupSizes(qs[..|qs| - 1], keys) + if GroupId(qs[|qs| - 1].id) in keys then 1 else 0
    decreases |keys|
  {
    if keys != [] {
      assert Distinct(keys[1..]);
      GroupSizesStep(qs, keys[1..]);
      if keys[0] == GroupId(qs[|qs| - 1].id) {
        assert keys[0] !in keys[1..];
      }
    }
  }

  /** The groups partition the questions: their sizes add up to the number
      of questions. */
  lemma {:induction false} GroupsPartition(qs: seq<Question>)
    ensures GroupSizes(qs, GroupOrder(qs)) == |qs|
    decreases |qs|
  {
    if qs != [] {
      var front := qs[..|qs| - 1];
      var g := GroupId(qs[|qs| - 1].id);
      var order := GroupOrder(front);
      GroupsPartition(front);
      GroupOrderDistinct(front);
      GroupOrderDistinct(qs);
      if g in order {
        GroupSizesStep(qs, order);
      } else {
        GroupSizesAppend(qs, order, g);
        GroupSizesStep(qs, order);
        UnlistedGroupEmpty(front, g);
      }
    }
  }

  /** The group selector's label and the group's title: the first `_` of
      the group id becomes a space. */
  function GroupLabel(g: string): (r: string)
    ensures |r| == |g|
    ensures '_' !in g ==> r == g
  {
    var i := IndexOf(g, "_");
    assert i >= 0 ==> OccursAt(g, "_", i) && '_' in g by {
      if i >= 0 { OccursAtChar(g, '_', i); }
    }
    Replace(g, "_", " ")
  }

  lemma OccursAtChar(s: string, c: char, j: int)
    ensures OccursAt(s, [c], j) <==> 0 <= j < |s| && s[j] == c
  {
    if 0 <= j < |s| {
      assert s[j..j + 1] == [s[j]];
    }
  }

  /** Before the first occurrence of `c`, the prefix holds no `c`. */
  lemma NoneBefore(g: string, c: char, i: int, j: int)
    requires 0 <= j <= i <= |g|
    requires forall k :: 0 <= k < i ==> !OccursAt(g, [c], k)
    ensures c !in g[..j]
  {
    forall k | 0 <= k < j ensures g[..j][k] != c {
      OccursAtChar(g, c, k);
    }
  }

  /** Only the first `_` is replaced; every other character is kept. */
  lemma GroupLabelChars(g: string)
    ensures |GroupLabel(g)| == |g|
    ensures forall j :: 0 <= j < |g| ==> GroupLabel(g)[j] == if g[j] == '_' && '_' !in g[..j] then ' ' else g[j]
  {
    var i := IndexOf(g, "_");
    if i == -1 {
      forall j | 0 <= j < |g| ensures g[j] != '_' {
        OccursAtChar(g, '_', j);
      }
    } else {
      OccursAtChar(g, '_', i);
      var shown := g[..i] + " " + g[i + 1..];
      assert GroupLabel(g) == shown;
      forall j | 0 <= j < |g|
        ensures shown[j] == if g[j] == '_' && '_' !in g[..j] then ' ' else g[j]
      {
        if j < i {
          NoneBefore(g, '_', i, j);
          OccursAtChar(g, '_', j);
        } else if j == i {
          NoneBefore(g, '_', i, j);
        } else {
          assert g[..j][i] == '_';
        }
      }
    }
  }

  // ---------------------------------------------------------------------
  // Progress and the displayed group

  /** The number of questions with a practice entry in storage. */
  function DoneCount(qs: seq<Question>, st: Storage): nat
    decreases |qs|
  {
    if qs == [] then 0
    else DoneCount(qs[..|qs| - 1], st) + if PracticeKey(qs[|qs| - 1].id) in st then 1 else 0
  }

  /** `updateProgressBar`'s count. */
  method CountDone(qs: seq<Question>, st: Storage) returns (done: nat)
    ensures done == DoneCount(qs, st)
  {
    done := 0;
    var i := 0;
    while i < |qs|
      invariant 0 <= i <= |qs|
      invariant done == DoneCount(qs[..i], st)
    {
      assert qs[..i + 1][..i] == qs[..i];
      if PracticeKey(qs[i].id) in st {
        done := done + 1;
      }
      i := i + 1;
    }
    assert qs[..i] == qs;
  }

  /** The count lies between 0 and the number of questions; it is 0 exactly
      when no question is done and the number of questions exactly when all are. */
  lemma {:induction false} DoneCountBounds(qs: seq<Question>, st: Storage)
    ensures DoneCount(qs, st) <= |qs|
    ensures DoneCount(qs, st) == 0 <==> forall i :: 0 <= i < |qs| ==> PracticeKey(qs[i].id) !in st
    ensures DoneCount(qs, st) == |qs| <==> forall i :: 0 <= i < |qs| ==> PracticeKey(qs[i].id) in st
    decreases |qs|
  {
    if qs != [] {
      var front := qs[..|qs| - 1];
      DoneCountBounds(front, st);
      assert forall i :: 0 <= i < |front| ==> front[i] == qs[i];
    }
  }

  /** The progress text `done/total`: its two `/` fields read back as the
      two counts. */
  function ProgressText(done: nat, total: nat): (t: string)
    ensures var f := Split(t, '/');
            |f| == 2 && IsDigits(f[0]) && IsDigits(f[1]) && DigitsValue(f[0]) == done && DigitsValue(f[1]) == total
  {
    DigitsExclude(Decimal(done), '/');
    DigitsExclude(Decimal(total), '/');
    SplitConcat(Decimal(done), Decimal(total), '/');
    SplitNoSep(Decimal(total), '/');
    DecimalValue(done);
    DecimalValue(total);
    Decimal(done) + "/" + Decimal(total)
  }

  /** The progress bar's width in percent (exact; the page computes it in
      floating point). */
  function ProgressPercent(done: nat, total: nat): (p: real)
    ensures total == 0 ==> p == 0.0
    ensures done <= total ==> 0.0 <= p <= 100.0
    ensures 0 < total == done ==> p == 100.0
  {
    if total > 0 then (done as real / total as real) * 100.0 else 0.0
  }

  /** `displayGroup`'s pass over one group: which questions are done, and
      whether any is (the download button is enabled exactly then). */
  method GroupDoneFlags(group: seq<Question>, st: Storage) returns (flags: seq<bool>, hasData: bool)
    ensures |flags| == |group|
    ensures forall i :: 0 <= i < |group| ==> flags[i] == (PracticeKey(group[i].id) in st)
    ensures hasData <==> exists i :: 0 <= i < |group| && PracticeKey(group[i].id) in st
  {
    flags, hasData := [], false;
    var i := 0;
    while i < |group|
      invariant 0 <= i <= |group| && |flags| == i
      invariant forall j :: 0 <= j < i ==> flags[j] == (PracticeKey(group[j].id) in st)
      invariant hasData <==> exists j :: 0 <= j < i && PracticeKey(group[j].id) in st
    {
      var isDone := PracticeKey(group[i].id) in st;
      flags := flags + [isDone];
      if isDone {
        hasData := true;
      }
      i := i + 1;
    }
  }

  // ---------------------------------------------------------------------
  // Export

  /** A parsed practice entry: its `results` (the page reads
      `results.transcription` and `results.refined_version`) and its
      `audioDataUrl`. */
  datatype PracticeEntry = PracticeEntry(results: Option<Results>, audioDataUrl: Option<string>)

  /** One spreadsheet row. */
  datatype Row = Row(question: string, transcription: string, refinedVersion: string, audioFile: Option<string>)

  /** One file of the archive's `audio` folder: its name and the base64
      payload (None: the data URL has no `,`). */
  datatype AudioEntry = AudioEntry(fileName: string, payload: Option<string>)

  /** `if (data)`: the question has a non-empty entry in storage. */
  predicate HasData(q: Question, st: Storage)
  {
    PracticeKey(q.id) in st && st[PracticeKey(q.id)] != ""
  }

  /** The archive's file name of a question's audio. */
  function AudioFileName(id: string): string
  {
    "question_" + id + ".webm"
  }

  /** The question id can be read back from the file name. */
  lemma AudioFileNameParts(id: string)
    ensures var n := AudioFileName(id);
            |n| == |id| + 14 && n[..9] == "question_" && n[|n| - 5..] == ".webm" && n[9..|n| - 5] == id
  {
  }

  /** The row for a question whose entry parsed with results. */
  function RowOf(q: Question, e: PracticeEntry, includeAudio: bool): (r: Row)
    requires e.results.Some?
    ensures r.question == q.text
    ensures r.transcription == e.results.value.transcription && r.refinedVersion == e.results.value.refinedVersion
    ensures r.audioFile.Some? <==> includeAudio && Truthy(e.audioDataUrl)
    ensures r.audioFile.Some? ==> r.audioFile.value == "audio/" + AudioFileName(q.id)
  {
    Row(q.text, e.results.value.transcription, e.results.value.refinedVersion,
        if includeAudio && Truthy(e.audioDataUrl) then Some("audio/" + AudioFileName(q.id)) else None)
  }

  /** The export rows, or None when the first pass throws: an entry that does
      not parse, or parses without `results`. `parse` is `JSON.parse`, None
      where it throws or yields no object. */
  function ExportRowsSpec(qs: seq<Question>, st: Storage, parse: string -> Option<PracticeEntry>, includeAudio: bool): Option<seq<Row>>
    decreases |qs|
  {
    if qs == [] then Some([])
    else
      var front := ExportRowsSpec(qs[..|qs| - 1], st, parse, includeAudio);
      var q := qs[|qs| - 1];
      if front.None? || !HasData(q, st) then front
      else
        var e := parse(st[PracticeKey(q.id)]);
        if e.None? || e.value.results.None? then None
        else Some(front.value + [RowOf(q, e.value, includeAudio)])
  }

  /** The questions with data, in list order. */
  function DataQuestions(qs: seq<Question>, st: Storage): (r: seq<Question>)
    ensures forall i :: 0 <= i < |r| ==> HasData(r[i], st)
    decreases |qs|
  {
    if qs == [] then []
    else DataQuestions(qs[..|qs| - 1], st) + if HasData(qs[|qs| - 1], st) then [qs[|qs| - 1]] else []
  }

  /** A question with data whose entry yields a row. */
  predicate Exportable(q: Question, st: Storage, parse: string -> Option<PracticeEntry>)
    requires HasData(q, st)
  {
    var e := parse(st[PracticeKey(q.id)]);
    e.Some? && e.value.results.Some?
  }

  /** Every question of `dq` has data and an entry that yields a row. */
  predicate AllExportable(dq: seq<Question>, st: Storage, parse: string -> Option<PracticeEntry>)
  {
    forall i :: 0 <= i < |dq| ==> HasData(dq[i], st) && Exportable(dq[i], st, parse)
  }

  lemma AllExportableSnoc(dq: seq<Question>, q: Question, st: Storage, parse: string -> Option<PracticeEntry>)
    requires HasData(q, st)
    ensures AllExportable(dq + [q], st, parse) <==> AllExportable(dq, st, parse) && Exportable(q, st, parse)
  {
    assert forall i :: 0 <= i < |dq| ==> (dq + [q])[i] == dq[i];
    assert (dq + [q])[|dq|] == q;
  }

  /** The export succeeds exactly when every question with data has a
      parsable entry with results. */
  lemma {:induction false} ExportRowsDefined(qs: seq<Question>, st: Storage, parse: string -> Option<PracticeEntry>, includeAudio: bool)
    ensures ExportRowsSpec(qs, st, parse, includeAudio).Some? <==> AllExportable(DataQuestions(qs, st), st, parse)
    decreases |qs|
  {
    if qs != [] {
      var front := qs[..|qs| - 1];
      var q := qs[|qs| - 1];
      ExportRowsDefined(front, st, parse, includeAudio);
      var dq := DataQuestions(qs, st);
      var dqf := DataQuestions(front, st);
      if HasData(q, st) {
        assert dq == dqf + [q];
        var e := parse(st[PracticeKey(q.id)]);
        assert Exportable(q, st, parse) <==> e.Some? && e.value.results.Some?;
        assert ExportRowsSpec(qs, st, parse, includeAudio).Some? <==>
               ExportRowsSpec(front, st, parse, includeAudio).Some? && e.Some? && e.value.results.Some?;
        AllExportableSnoc(dqf, q, st, parse);
      } else {
        assert dq == dqf;
      }
    }
  }

  /** A successful export has one row per question with data, in list
      order, projected from that question's entry. */
  lemma {:induction false} ExportRowsContents(qs: seq<Question>, st: Storage, parse: string -> Option<PracticeEntry>, includeAudio: bool)
    ensures var dq := DataQuestions(qs, st);
            var rows := ExportRowsSpec(qs, st, parse, includeAudio);
            rows.Some? ==>
              && |rows.value| == |dq|
              && forall i :: 0 <= i < |dq| ==>
                   Exportable(dq[i], st, parse) &&
                   rows.value[i] == RowOf(dq[i], parse(st[PracticeKey(dq[i].id)]).value, includeAudio)
    decreases |qs|
  {
    var rows := ExportRowsSpec(qs, st, parse, includeAudio);
    if qs != [] && rows.Some? {
      var front := qs[..|qs| - 1];
      var q := qs[|qs| - 1];
      ExportRowsContents(front, st, parse, includeAudio);
      var dq := DataQuestions(qs, st);
      var dqf := DataQuestions(front, st);
      var rowsf := ExportRowsSpec(front, st, parse, includeAudio);
      assert rowsf.Some?;
      if HasData(q, st) {
        assert dq == dqf + [q];
        var row := RowOf(q, parse(st[PracticeKey(q.id)]).value, includeAudio);
        assert rows.value == rowsf.value + [row];
        forall i | 0 <= i < |dq|
          ensures Exportable(dq[i], st, parse)
          ensures rows.value[i] == RowOf(dq[i], parse(st[PracticeKey(dq[i].id)]).value, includeAudio)
        {
          if i < |dqf| {
            assert dq[i] == dqf[i] && rows.value[i] == rowsf.value[i];
          } else {
            assert dq[i] == q && rows.value[i] == row;
          }
        }
      } else {
        assert dq == dqf && rows == rowsf;
      }
    }
  }

  /** Once the first pass has thrown, later questions do not matter. */
  lemma {:induction false} ExportRowsCrashSticks(qs: seq<Question>, st: Storage, parse: string -> Option<PracticeEntry>, includeAudio: bool, i: int)
    requires 0 <= i <= |qs| && ExportRowsSpec(qs[..i], st, parse, includeAudio).None?
    ensures ExportRowsSpec(qs, st, parse, includeAudio).None?
    decreases |qs| - i
  {
    if i < |qs| {
      assert qs[..i + 1][..i] == qs[..i];
      ExportRowsCrashSticks(qs, st, parse, includeAudio, i + 1);
    } else {
      assert qs[..i] == qs;
    }
  }

  /** The download handler's first pass over the question list. */
  method ExportRows(qs: seq<Question>, st: Storage, parse: string -> Option<PracticeEntry>, includeAudio: bool) returns (rows: Option<seq<Row>>)
    ensures rows == ExportRowsSpec(qs, st, parse, includeAudio)
  {
    var acc: seq<Row> := [];
    var i := 0;
    while i < |qs|
      invariant 0 <= i <= |qs|
      invariant ExportRowsSpec(qs[..i], st, parse, includeAudio) == Some(acc)
    {
      var q := qs[i];
      assert qs[..i + 1][..i] == qs[..i];
      if HasData(q, st) {
        var e := parse(st[PracticeKey(q.id)]);
        if e.None? || e.value.results.None? {
          ExportRowsCrashSticks(qs, st, parse, includeAudio, i + 1);
          return None;
        }
        acc := acc + [RowOf(q, e.value, includeAudio)];
      }
      i := i + 1;
    }
    assert qs[..i] == qs;
    rows := Some(acc);
  }

  /** The archive payload of a data URL: its second `,` field. */
  function Payload(url: string): Option<string>
  {
    var f := Split(url, ',');
    if |f| >= 2 then Some(f[1]) else None
  }

  /** The payload of `header,data` is `data`. */
  lemma PayloadOfDataUrl(header: string, data: string)
    requires ',' !in header && ',' !in data
    ensures Payload(header + "," + data) == Some(data)
  {
    SplitConcat(header, data, ',');
    SplitNoSep(data, ',');
  }

  /** The archive's audio files: one per question with data whose entry
      parses and has a truthy data URL. */
  function AudioEntriesSpec(qs: seq<Question>, st: Storage, parse: string -> Option<PracticeEntry>): seq<AudioEntry>
    decreases |qs|
  {
    if qs == [] then []
    else
      var front := AudioEntriesSpec(qs[..|qs| - 1], st, parse);
      var q := qs[|qs| - 1];
      if HasData(q, st) && parse(st[PracticeKey(q.id)]).Some? && Truthy(parse(st[PracticeKey(q.id)]).value.audioDataUrl)
      then front + [AudioEntry(AudioFileName(q.id), Payload(parse(st[PracticeKey(q.id)]).value.audioDataUrl.value))]
      else front
  }

  /** The download handler's second pass, when audio is included. */
  method AudioEntries(qs: seq<Question>, st: Storage, parse: string -> Option<PracticeEntry>) returns (entries: seq<AudioEntry>)
    ensures entries == AudioEntriesSpec(qs, st, parse)
  {
    entries := [];
    var i := 0;
    while i < |qs|
      invariant 0 <= i <= |qs|
      invariant entries == AudioEntriesSpec(qs[..i], st, parse)
    {
      var q := qs[i];
      assert qs[..i + 1][..i] == qs[..i];
      if HasData(q, st) {
        var e := parse(st[PracticeKey(q.id)]);
        if e.Some? && Truthy(e.value.audioDataUrl) {
          entries := entries + [AudioEntry(AudioFileName(q.id), Payload(e.value.audioDataUrl.value))];
        }
      }
      i := i + 1;
    }
    assert qs[..i] == qs;
  }

  /** The audio links of the rows, in order. */
  function LinkedFiles(rows: seq<Row>): seq<string>
    decreases |rows|
  {
    if rows == [] then []
    else LinkedFiles(rows[..|rows| - 1]) + if rows[|rows| - 1].audioFile.Some? then [rows[|rows| - 1].audioFile.value] else []
  }

  /** The archive paths of the audio files, in order. */
  function ArchivedPaths(entries: seq<AudioEntry>): seq<string>
    decreases |entries|
  {
    if entries == [] then [] else ArchivedPaths(entries[..|entries| - 1]) + ["audio/" + entries[|entries| - 1].fileName]
  }

  /** With audio included, the rows link exactly the files the archive holds,
      in the same order. */
  lemma {:induction false} LinksMatchArchive(qs: seq<Question>, st: Storage, parse: string -> Option<PracticeEntry>)
    requires ExportRowsSpec(qs, st, parse, true).Some?
    ensures LinkedFiles(ExportRowsSpec(qs, st, parse, true).value) == ArchivedPaths(AudioEntriesSpec(qs, st, parse))
    decreases |qs|
  {
    if qs != [] {
      var front := qs[..|qs| - 1];
      var q := qs[|qs| - 1];
      assert ExportRowsSpec(front, st, parse, true).Some?;
      LinksMatchArchive(front, st, parse);
      var rows := ExportRowsSpec(qs, st, parse, true).value;
      if HasData(q, st) {
        assert rows[..|rows| - 1] == ExportRowsSpec(front, st, parse, true).value;
      }
    }
  }

  /** What a click on the download button produces. */
  datatype Download =
    | Crashed                                           // the first pass threw
    | NothingToDownload                                 // the "No practice results" alert
    | Spreadsheet(rows: seq<Row>)                       // opic_all_results.xlsx
    | Archive(rows: seq<Row>, audio: seq<AudioEntry>)   // opic_results.zip

  /** The download button's handler, up to the spreadsheet and archive
      libraries. */
  method DownloadAll(qs: seq<Question>, st: Storage, parse: string -> Option<PracticeEntry>, includeAudio: bool) returns (d: Download)
    ensures d.Crashed? <==> ExportRowsSpec(qs, st, parse, includeAudio).None?
    ensures d.NothingToDownload? <==> ExportRowsSpec(qs, st, parse, includeAudio) == Some([])
    ensures d.Spreadsheet? <==> !includeAudio && ExportRowsSpec(qs, st, parse, includeAudio).Some? && ExportRowsSpec(qs, st, parse, includeAudio).value != []
    ensures d.Spreadsheet? || d.Archive? ==> Some(d.rows) == ExportRowsSpec(qs, st, parse, includeAudio)
    ensures d.Archive? ==> includeAudio && d.audio == AudioEntriesSpec(qs, st, parse)
  {
    var rows := ExportRows(qs, st, parse, includeAudio);
    if rows.None? {
      return Crashed;
    }
    if rows.value == [] {
      return NothingToDownload;
    }
    if includeAudio {
      var audio := AudioEntries(qs, st, parse);
      d := Archive(rows.value, audio);
    } else {
      d := Spreadsheet(rows.value);
    }
  }

  // ---------------------------------------------------------------------
  // The page

  /** The page's module-level state and what it shows. */
  /** `groups` and `order` are what grouping `qs` yields. */
  ghost predicate Grouping(qs: seq<Question>, groups: map<string, seq<Question>>, order: seq<string>)
  {
    && order == GroupOrder(qs)
    && (forall g :: g in groups <==> g in order)
    && (forall g :: g in groups ==> groups[g] == Members(qs, g))
  }

  class QuestionListPage {
    var storage: Storage
    var apiKey: Option<string>
    var questions: seq<Question>
    var groups: map<string, seq<Question>>
    /** The group ids, in the order the selector lists them. */
    var groupOrder: seq<string>
    /** The selector's options: value and label. */
    var options: seq<(string, string)>
    var hasPracticeData: bool
    var downloadEnabled: bool
    var title: string
    var doneFlags: seq<bool>
    var progressText: string
    var progressPercent: real
    /** The list shows "Failed to load questions.". */
    var loadFailed: bool

    ghost predicate Valid()
      reads this
    {
      Grouping(questions, groups, groupOrder)
    }

    /** The page load: the API key is resolved from the auth token and storage. */
    constructor (storage: Storage, authToken: Option<string>, decode: string -> Option<string>,
                 dayOf: string -> Option<int>, today: int)
      ensures Valid()
      ensures AuthResult(apiKey, this.storage) == LoadApiKeyAsWritten(authToken, decode, dayOf, today, storage)
      ensures questions == [] && groups == map[] && options == [] && !loadFailed
    {
      var auth := LoadApiKeyAsWritten(authToken, decode, dayOf, today, storage);
      this.storage := auth.storage;
      apiKey := auth.apiKey;
      questions, groups, groupOrder, options := [], map[], [], [];
      hasPracticeData, downloadEnabled := false, false;
      title, doneFlags := "", [];
      progressText, progressPercent := "", 0.0;
      loadFailed := false;
    }

    /** `loadQuestions`: group the feed, fill the selector, show the first
        group and count progress. With an empty feed showing the (missing)
        first group throws, so the progress bar is not updated. */
    method LoadQuestions(feed: Option<seq<Question>>)
      requires Valid()
      modifies this
      ensures Valid()
      ensures storage == old(storage) && apiKey == old(apiKey)
      ensures feed.None? ==>
                && loadFailed && questions == old(questions) && options == old(options)
                && groups == old(groups) && groupOrder == old(groupOrder)
                && hasPracticeData == old(hasPracticeData) && downloadEnabled == old(downloadEnabled)
                && title == old(title) && doneFlags == old(doneFlags)
                && progressText == old(progressText) && progressPercent == old(progressPercent)
      ensures feed.Some? ==> questions == feed.value
      ensures feed.Some? ==> options == old(options) + SelectorOptions(GroupOrder(feed.value))
      ensures feed.Some? && feed.value == [] ==>
                && loadFailed && !hasPracticeData && title == "" && doneFlags == []
                && downloadEnabled == old(downloadEnabled)
                && progressText == old(progressText) && progressPercent == old(progressPercent)
      ensures feed.Some? && feed.value != [] ==>
                && loadFailed == old(loadFailed)
                && title == GroupLabel(GroupId(feed.value[0].id))
                && downloadEnabled == hasPracticeData
                && progressText == ProgressText(DoneCount(questions, storage), |questions|)
                && progressPercent == ProgressPercent(DoneCount(questions, storage), |questions|)
      ensures feed.Some? && feed.value != [] ==>
                var shown := Members(feed.value, GroupId(feed.value[0].id));
                && |doneFlags| == |shown|
                && (forall i :: 0 <= i < |shown| ==> doneFlags[i] == (PracticeKey(shown[i].id) in storage))
                && (hasPracticeData <==> exists i :: 0 <= i < |shown| && PracticeKey(shown[i].id) in storage)
    {
      if feed.None? {
        loadFailed := true;
        return;
      }
      questions := feed.value;
      groups, groupOrder := GroupQuestions(questions);
      options := options + SelectorOptions(groupOrder);
      // Object.keys(groupedQuestions)[0]
      var first: Option<string> := None;
      if questions != [] {
        FirstGroup(questions);
        first := Some(groupOrder[0]);
      }
      var ok := DisplayGroup(first);
      if !ok {
        loadFailed := true;
        return;
      }
      UpdateProgressBar();
    }

    /** `displayGroup(groupId)`: list the group under its label, mark done
        questions and enable the download button exactly when one is done.
        `title` and `doneFlags` are what the list shows ("" and [] when it
        is empty). An id that names no group (None: `undefined`) throws after
        the list and `hasPracticeData` are cleared. */
    method DisplayGroup(groupId: Option<string>) returns (ok: bool)
      requires Valid()
      modifies this
      ensures Valid()
      ensures ok <==> groupId.Some? && groupId.value in groups
      ensures questions == old(questions) && groups == old(groups) && groupOrder == old(groupOrder)
      ensures storage == old(storage) && apiKey == old(apiKey) && options == old(options) && loadFailed == old(loadFailed)
      ensures progressText == old(progressText) && progressPercent == old(progressPercent)
      ensures !ok ==> !hasPracticeData && downloadEnabled == old(downloadEnabled) && title == "" && doneFlags == []
      ensures ok ==> title == GroupLabel(groupId.value)
      ensures ok ==> |doneFlags| == |groups[groupId.value]|
      ensures ok ==> forall i :: 0 <= i < |doneFlags| ==> doneFlags[i] == (PracticeKey(groups[groupId.value][i].id) in storage)
      ensures ok ==> (hasPracticeData <==> exists i :: 0 <= i < |groups[groupId.value]| && PracticeKey(groups[groupId.value][i].id) in storage)
      ensures ok ==> downloadEnabled == hasPracticeData
    {
      if groupId.None? || groupId.value !in groups {
        // the list is cleared, then the missing group throws
        title, doneFlags, hasPracticeData := "", [], false;
        return false;
      }
      var group := groups[groupId.value];
      var flags, has := GroupDoneFlags(group, storage);
      title, doneFlags, hasPracticeData, downloadEnabled := GroupLabel(groupId.value), flags, has, has;
      ok := true;
    }

    /** `updateProgressBar`. */
    method UpdateProgressBar()
      requires Valid()
      modifies this
      ensures Valid()
      ensures progressText == ProgressText(DoneCount(questions, storage), |questions|)
      ensures progressPercent == ProgressPercent(DoneCount(questions, storage), |questions|)
      ensures questions == old(questions) && groups == old(groups) && groupOrder == old(groupOrder) && storage == old(storage)
      ensures apiKey == old(apiKey) && doneFlags == old(doneFlags)
      ensures hasPracticeData == old(hasPracticeData) && downloadEnabled == old(downloadEnabled) && title == old(title)
      ensures options == old(options) && loadFailed == old(loadFailed)
    {
      var done := CountDone(questions, storage);
      progressText := ProgressText(done, |questions|);
      progressPercent := ProgressPercent(done, |questions|);
    }
  }

  /** `populateGroupSelector`: one option per group id, in order. */
  function SelectorOptions(order: seq<string>): (r: seq<(string, string)>)
    ensures |r| == |order|
    ensures forall i :: 0 <= i < |r| ==>
              && r[i].0 == order[i] && |r[i].1| == |order[i]|
              && ('_' !in order[i] ==> r[i].1 == order[i])
  {
    seq(|order|, i requires 0 <= i < |order| => (order[i], GroupLabel(order[i])))
  }
}
