/** `AudioTextUploader` in my-project/src/my_project/audio_text_uploader.py:
    the transcript file is read back two lines at a time, a `start-end`
    header and the text under it, and uploaded as an "audio" document. The
    file is given as the lines `readlines` returns, each with its newline. */
module AudioUpload {
  import opened Results
  import opened Text
  import opened Metadata
  import opened Transcript
  import MinioDatabase

  /** `start_time, end_time = time_range.split('-')`: anything but exactly
      two fields fails to unpack. */
  function TimeRange(line: string): Result<(string, string)> {
    var parts := Split(Strip(line), '-');
    if |parts| == 2 then Ok((parts[0], parts[1])) else Err(ValueError)
  }

  /** The entry read at line `i`: its header and the stripped next line, or
      "" when there is none (lines 26-35). */
  function CueAt(lines: seq<string>, i: nat): Result<Cue>
    requires i < |lines|
  {
    match TimeRange(lines[i])
    case Err(e) => Err(e)
    case Ok(range) => Ok(Cue(range.0, range.1, if i + 1 < |lines| then Strip(lines[i + 1]) else ""))
  }

  /** The entry read at each line index of the file. */
  function EntryReader(lines: seq<string>): nat -> Result<Cue> {
    (i: nat) => if i < |lines| then CueAt(lines, i) else Err(ValueError)
  }

  /** The entries read at `i`, `i + 2`, ... below `n`, or the error of the
      first one that fails. */
  function Gather(entry: nat -> Result<Cue>, n: nat, i: nat): Result<seq<Cue>>
    decreases n - i
  {
    if i >= n then Ok([])
    else match entry(i)
      case Err(e) => Err(e)
      case Ok(c) =>
        match Gather(entry, n, i + 2)
        case Err(e) => Err(e)
        case Ok(rest) => Ok([c] + rest)
  }

  /** `parse_audio_transcription` on the lines of the file. */
  function Parse(lines: seq<string>): Result<seq<Cue>> {
    Gather(EntryReader(lines), |lines|, 0)
  }

  /** The only error the parse can end in is the `ValueError` of an unpacking. */
  lemma ParseError(lines: seq<string>)
    ensures Parse(lines).Err? ==> Parse(lines) == Err(ValueError)
  {
    EntryErrors(lines);
    GatherError(EntryReader(lines), |lines|, 0);
  }

  /** The entries `done` already read, followed by the outcome of the rest. */
  function After(done: seq<Cue>, r: Result<seq<Cue>>): Result<seq<Cue>> {
    match r
    case Err(e) => Err(e)
    case Ok(rest) => Ok(done + rest)
  }

  /** Lines 19-37, stepping through the lines two at a time. */
  method ParseAudioTranscription(lines: seq<string>) returns (r: Result<seq<Cue>>)
    ensures r == Parse(lines)
  {
    ghost var entry := EntryReader(lines);
    var transcriptionContent: seq<Cue> := [];
    var i := 0;
    AfterNothing(Gather(entry, |lines|, 0));
    while i < |lines|
      invariant Gather(entry, |lines|, 0) == After(transcriptionContent, Gather(entry, |lines|, i))
      decreases |lines| - i
    {
      var e := ReadEntry(lines, i);
      if e.Err? {
        GatherFails(entry, |lines|, i, transcriptionContent);
        return Err(ValueError);
      }
      GatherStep(entry, |lines|, i, transcriptionContent, e.value);
      transcriptionContent := transcriptionContent + [e.value];
      i := i + 2;
    }
    GatherDone(entry, |lines|, i, transcriptionContent);
    return Ok(transcriptionContent);
  }

  /** Lines 24-35 for the header at line `i`: only the `ValueError` of the
      unpacking can go wrong. */
  method ReadEntry(lines: seq<string>, i: nat) returns (e: Result<Cue>)
    requires i < |lines|
    ensures e == EntryReader(lines)(i)
    ensures e.Err? ==> e == Err(ValueError)
  {
    CueAtFields(lines, i);
    var timeRange := Strip(lines[i]);
    var transcriptionText := if i + 1 < |lines| then Strip(lines[i + 1]) else "";
    var parts := Split(timeRange, '-');
    if |parts| != 2 {
      return Err(ValueError);
    }
    return Ok(Cue(parts[0], parts[1], transcriptionText));
  }

  lemma EntryErrors(lines: seq<string>)
    ensures forall j: nat | j < |lines| :: EntryReader(lines)(j).Err? ==> EntryReader(lines)(j) == Err(ValueError)
  {
    forall j: nat | j < |lines| ensures EntryReader(lines)(j).Err? ==> EntryReader(lines)(j) == Err(ValueError) {
      CueAtFields(lines, j);
    }
  }

  lemma {:induction false} GatherError(entry: nat -> Result<Cue>, n: nat, i: nat)
    requires forall j: nat | i <= j < n :: entry(j).Err? ==> entry(j) == Err(ValueError)
    ensures Gather(entry, n, i).Err? ==> Gather(entry, n, i) == Err(ValueError)
    decreases n - i
  {
    if i < n {
      GatherError(entry, n, i + 2);
    }
  }

  lemma AfterNothing(r: Result<seq<Cue>>)
    ensures After([], r) == r
  {
    if r.Ok? {
      assert [] + r.value == r.value;
    }
  }

  lemma GatherStep(entry: nat -> Result<Cue>, n: nat, i: nat, done: seq<Cue>, c: Cue)
    requires i < n && entry(i) == Ok(c)
    ensures After(done, Gather(entry, n, i)) == After(done + [c], Gather(entry, n, i + 2))
  {
    match Gather(entry, n, i + 2)
    case Err(e) =>
    case Ok(rest) => assert done + ([c] + rest) == done + [c] + rest;
  }

  lemma GatherFails(entry: nat -> Result<Cue>, n: nat, i: nat, done: seq<Cue>)
    requires i < n && entry(i).Err?
    ensures After(done, Gather(entry, n, i)) == Err(entry(i).error)
  {
  }

  lemma GatherDone(entry: nat -> Result<Cue>, n: nat, i: nat, done: seq<Cue>)
    requires i >= n
    ensures After(done, Gather(entry, n, i)) == Ok(done)
  {
    assert done + [] == done;
  }

  /** The entry at line `i`, with the header's fields spelled out. */
  lemma CueAtFields(lines: seq<string>, i: nat)
    requires i < |lines|
    ensures var parts := Split(Strip(lines[i]), '-');
      EntryReader(lines)(i) ==
        if |parts| == 2 then Ok(Cue(parts[0], parts[1], if i + 1 < |lines| then Strip(lines[i + 1]) else ""))
        else Err(ValueError)
  {
  }

  /** Line 2k exists exactly when k is below the record count. */
  lemma HalfBound(n: nat, k: nat)
    ensures 2 * k < n <==> k < (n + 1) / 2
  {
  }

  lemma HalfEnd(n: nat, k: nat)
    requires n <= 2 * k <= n + 1
    ensures k == (n + 1) / 2
  {
  }

  /** From entry `m` on: gathering succeeds exactly when every later entry
      does, and then holds each of them, in order. */
  lemma {:induction false} GatherShape(entry: nat -> Result<Cue>, n: nat, i: nat, m: nat)
    requires i == 2 * m && i <= n + 1
    ensures Gather(entry, n, i).Ok? <==> forall k | m <= k && 2 * k < n :: entry(2 * k).Ok?
    ensures Gather(entry, n, i).Ok? ==>
      var v := Gather(entry, n, i).value;
      n <= 2 * (m + |v|) <= n + 1 &&
      forall k | m <= k && 2 * k < n :: k - m < |v| && entry(2 * k) == Ok(v[k - m])
    decreases n + 1 - i
  {
    if i < n {
      GatherShape(entry, n, i + 2, m + 1);
    }
  }

  /** How many `i` lie in `range(0, len(lines), 2)`. */
  function RecordCount(lines: seq<string>): nat {
    (|lines| + 1) / 2
  }

  /** `stripped line 2k` splits into two fields. */
  predicate HeaderOk(lines: seq<string>, k: nat)
    requires 2 * k < |lines|
  {
    |Split(Strip(lines[2 * k]), '-')| == 2
  }

  /** The parse succeeds exactly when every header splits into two fields;
      then there is one entry per header, ceil(lines / 2) of them, holding the
      two fields of line 2k and the stripped line after it, or "". */
  lemma ParseShape(lines: seq<string>)
    ensures Parse(lines).Ok? <==> forall k | 0 <= k < RecordCount(lines) :: HeaderOk(lines, k)
    ensures Parse(lines).Ok? ==>
      |Parse(lines).value| == RecordCount(lines) &&
      forall k | 0 <= k < RecordCount(lines) ::
        var parts := Split(Strip(lines[2 * k]), '-');
        |parts| == 2 &&
        Parse(lines).value[k] == Cue(parts[0], parts[1], if 2 * k + 1 < |lines| then Strip(lines[2 * k + 1]) else "")
  {
    ParseOk(lines);
    if Parse(lines).Ok? {
      ParseValues(lines);
    }
  }

  lemma ParseOk(lines: seq<string>)
    ensures Parse(lines).Ok? <==> forall k | 0 <= k < RecordCount(lines) :: HeaderOk(lines, k)
  {
    var entry := EntryReader(lines);
    GatherShape(entry, |lines|, 0, 0);
    forall k | 0 <= k
      ensures k < RecordCount(lines) <==> 2 * k < |lines|
    {
      HalfBound(|lines|, k);
    }
    forall k | 0 <= k < RecordCount(lines)
      ensures entry(2 * k).Ok? <==> HeaderOk(lines, k)
    {
      CueAtFields(lines, 2 * k);
    }
  }

  lemma ParseValues(lines: seq<string>)
    requires Parse(lines).Ok?
    ensures |Parse(lines).value| == RecordCount(lines)
    ensures forall k | 0 <= k < RecordCount(lines) ::
        var parts := Split(Strip(lines[2 * k]), '-');
        |parts| == 2 &&
        Parse(lines).value[k] == Cue(parts[0], parts[1], if 2 * k + 1 < |lines| then Strip(lines[2 * k + 1]) else "")
  {
    var v := Parse(lines).value;
    ParseEntries(lines);
    forall k | 0 <= k < RecordCount(lines)
      ensures var parts := Split(Strip(lines[2 * k]), '-');
        |parts| == 2 && v[k] == Cue(parts[0], parts[1], if 2 * k + 1 < |lines| then Strip(lines[2 * k + 1]) else "")
    {
      HalfBound(|lines|, k);
      CueFromEntry(lines, 2 * k, v[k]);
    }
  }

  /** Record k of a successful parse is the entry read at line 2k. */
  lemma ParseEntries(lines: seq<string>)
    requires Parse(lines).Ok?
    ensures |Parse(lines).value| == RecordCount(lines)
    ensures forall k | 0 <= k < RecordCount(lines) :: EntryReader(lines)(2 * k) == Ok(Parse(lines).value[k])
  {
    GatherEntries(EntryReader(lines), |lines|);
  }

  lemma GatherEntries(entry: nat -> Result<Cue>, n: nat)
    requires Gather(entry, n, 0).Ok?
    ensures |Gather(entry, n, 0).value| == (n + 1) / 2
    ensures forall k | 0 <= k < (n + 1) / 2 :: entry(2 * k) == Ok(Gather(entry, n, 0).value[k])
  {
    GatherShape(entry, n, 0, 0);
    HalfEnd(n, |Gather(entry, n, 0).value|);
    forall k | 0 <= k < (n + 1) / 2
      ensures 2 * k < n
    {
      HalfBound(n, k);
    }
  }

  /** A header line that reads as `c` gives `c`'s fields. */
  lemma CueFromEntry(lines: seq<string>, i: nat, c: Cue)
    requires i < |lines| && EntryReader(lines)(i) == Ok(c)
    ensures var parts := Split(Strip(lines[i]), '-');
      |parts| == 2 && c == Cue(parts[0], parts[1], if i + 1 < |lines| then Strip(lines[i + 1]) else "")
  {
    CueAtFields(lines, i);
  }

  /** A header with a negative start, such as "-10-0", has an extra cut and
      fails to unpack. */
  lemma NegativeStartFails(lines: seq<string>, a: int, b: int, words: seq<string>)
    requires a < 0 && b >= 0 && lines != [] && lines[0] == Header(Window(a, b, words)) + "\n"
    ensures Parse(lines) == Err(ValueError)
  {
    var h := Header(Window(a, b, words));
    var digits := NatToString(-a) + "-" + IntToString(b);
    assert h == [] + ['-'] + digits;
    assert !IsSpace(h[0]) && !IsSpace(h[|h| - 1]);
    StripNewline(h);
    SplitCons([], digits, '-');
    assert '-' in digits by { assert digits[|NatToString(-a)|] == '-'; }
    CutSplits(digits, '-');
    CueAtFields(lines, 0);
  }

  // ---------------------------------------------------------------------
  // Reading back what the bucketizer writes

  /** What `readlines` returns for a file written line by line. */
  function ReadLines(written: seq<string>): (lines: seq<string>)
    ensures |lines| == |written| && forall i | 0 <= i < |written| :: lines[i] == written[i] + "\n"
  {
    seq(|written|, i requires 0 <= i < |written| => written[i] + "\n")
  }

  /** The entry a record is read back as: the header's two numbers (`EOF` as
      the end of the last one) and the joined words. */
  function RecordCue(r: Record): Cue {
    match r
    case Window(a, b, words) => Cue(IntToString(a), IntToString(b), Join(" ", words))
    case Tail(b, words) => Cue(IntToString(b), "EOF", Join(" ", words))
  }

  function Cues(records: seq<Record>): (cues: seq<Cue>)
    ensures |cues| == |records|
  {
    if records == [] then [] else Cues(records[..|records| - 1]) + [RecordCue(records[|records| - 1])]
  }

  predicate GoodText(t: string) {
    t != "" && NoSpace(t)
  }

  /** Numbers a header writes without a minus sign, and words that survive
      joining and stripping. */
  predicate RecordOk(r: Record) {
    (r.Window? ==> r.start >= 0 && r.end >= 0) && (r.Tail? ==> r.end >= 0) &&
    forall i | 0 <= i < |r.words| :: GoodText(r.words[i])
  }

  predicate RecordsOk(records: seq<Record>) {
    forall i | 0 <= i < |records| :: RecordOk(records[i])
  }

  /** A written header reads back as the record's two fields. */
  lemma HeaderReadBack(r: Record)
    requires RecordOk(r)
    ensures Strip(Header(r) + "\n") == Header(r)
    ensures Split(Header(r), '-') == [RecordCue(r).startTime, RecordCue(r).endTime]
  {
    if r.Window? {
      WindowHeaderReadBack(r);
    } else {
      TailHeaderReadBack(r);
    }
  }

  lemma WindowHeaderReadBack(r: Record)
    requires r.Window? && r.start >= 0 && r.end >= 0
    ensures Header(r) == IntToString(r.start) + "-" + IntToString(r.end)
    ensures Strip(Header(r) + "\n") == Header(r)
    ensures Split(Header(r), '-') == [IntToString(r.start), IntToString(r.end)]
  {
    IntToStringShape(r.start);
    IntToStringShape(r.end);
    FieldsReadBack(IntToString(r.start), IntToString(r.end));
  }

  lemma TailHeaderReadBack(r: Record)
    requires r.Tail? && r.end >= 0
    ensures Header(r) == IntToString(r.end) + "-" + "EOF"
    ensures Strip(Header(r) + "\n") == Header(r)
    ensures Split(Header(r), '-') == [IntToString(r.end), "EOF"]
  {
    var x := IntToString(r.end);
    EofSuffix(x);
    IntToStringShape(r.end);
    FieldsReadBack(x, "EOF");
  }

  lemma EofSuffix(x: string)
    ensures x + "-EOF" == x + "-" + "EOF"
  {
    assert "-EOF" == "-" + "EOF";
  }

  /** Two numbers written without a sign stay apart when read back. */
  lemma FieldsReadBack(x: string, y: string)
    requires |x| > 0 && |y| > 0 && NoSpace(x) && NoSpace(y) && '-' !in x && '-' !in y
    ensures Strip(x + "-" + y + "\n") == x + "-" + y
    ensures Split(x + "-" + y, '-') == [x, y]
  {
    var h := x + "-" + y;
    assert h == x + ['-'] + y;
    assert h[0] == x[0] && h[|h| - 1] == y[|y| - 1];
    StripNewline(h);
    SplitPair(x, y, '-');
  }

  /** Written words read back as the joined text. */
  lemma TextReadBack(words: seq<string>)
    requires forall i | 0 <= i < |words| :: GoodText(words[i])
    ensures Strip(Join(" ", words) + "\n") == Join(" ", words)
  {
    assert forall i | 0 <= i < |words| :: words[i] != "" && NoSpace(words[i]);
    JoinTrimmed(words);
    var j := Join(" ", words);
    assert j == [] || (!IsSpace(j[0]) && !IsSpace(j[|j| - 1]));
    StripNewline(j);
  }

  /** The entry read at line 2k of a written file is record k. */
  lemma CueAtRecord(records: seq<Record>, k: nat)
    requires RecordsOk(records) && k < |records|
    ensures EntryReader(ReadLines(Lines(records)))(2 * k) == Ok(RecordCue(records[k]))
  {
    var i := 2 * k;
    assert RecordOk(records[k]);
    WrittenRecord(records, k, i);
    RecordEntryAt(ReadLines(Lines(records)), i, records[k]);
  }

  /** Lines that strip to a record's header and text are read as its entry. */
  lemma RecordEntryAt(lines: seq<string>, i: nat, r: Record)
    requires RecordOk(r) && i + 1 < |lines|
    requires Strip(lines[i]) == Header(r) && Strip(lines[i + 1]) == Join(" ", r.words)
    ensures EntryReader(lines)(i) == Ok(RecordCue(r))
  {
    HeaderReadBack(r);
    assert RecordCue(r).content == Join(" ", r.words);
    EntryOfLines(lines, i, Header(r), RecordCue(r));
  }

  /** Lines 2k and 2k + 1 of a written file strip to record k's header and text. */
  lemma WrittenRecord(records: seq<Record>, k: nat, i: nat)
    requires RecordsOk(records) && k < |records| && i == 2 * k
    ensures var lines := ReadLines(Lines(records));
      i + 1 < |lines| && Strip(lines[i]) == Header(records[k]) &&
      Strip(lines[i + 1]) == Join(" ", records[k].words)
  {
    var lines := ReadLines(Lines(records));
    var r := records[k];
    assert RecordOk(r);
    LinesAt(records, k);
    assert lines[2 * k] == Header(r) + "\n";
    assert lines[2 * k + 1] == Join(" ", r.words) + "\n";
    HeaderReadBack(r);
    TextReadBack(r.words);
  }

  /** A header line that strips to fields split by `-`, and the stripped line
      after it, make up the entry read there. */
  lemma EntryOfLines(lines: seq<string>, i: nat, header: string, c: Cue)
    requires i + 1 < |lines| && Strip(lines[i]) == header && Strip(lines[i + 1]) == c.content
    requires Split(header, '-') == [c.startTime, c.endTime]
    ensures EntryReader(lines)(i) == Ok(c)
  {
    CueAtFields(lines, i);
  }

  /** Entries that each header gives in turn make up the whole parse. */
  lemma {:induction false} GatherAll(entry: nat -> Result<Cue>, cues: seq<Cue>, i: nat, m: nat)
    requires i == 2 * m && m <= |cues|
    requires forall k | m <= k < |cues| :: entry(2 * k) == Ok(cues[k])
    ensures Gather(entry, 2 * |cues|, i) == Ok(cues[m..])
    decreases |cues| - m
  {
    if m < |cues| {
      GatherAll(entry, cues, i + 2, m + 1);
      assert cues[m..] == [cues[m]] + cues[m + 1..];
    }
  }

  lemma {:induction false} CuesAt(records: seq<Record>, k: nat)
    requires k < |records|
    ensures Cues(records)[k] == RecordCue(records[k])
    decreases |records|
  {
    var n := |records| - 1;
    if k < n {
      CuesAt(records[..n], k);
    }
  }

  /** Parsing a file written from well-formed records gives back, record by
      record, the header fields and the joined words. */
  lemma ParseLines(records: seq<Record>)
    requires RecordsOk(records)
    ensures Parse(ReadLines(Lines(records))) == Ok(Cues(records))
  {
    var lines := ReadLines(Lines(records));
    var cues := Cues(records);
    forall k | 0 <= k < |cues|
      ensures EntryReader(lines)(2 * k) == Ok(cues[k])
    {
      CueAtRecord(records, k);
      CuesAt(records, k);
    }
    GatherAll(EntryReader(lines), cues, 0, 0);
    assert cues[0..] == cues;
  }

  // The bucketizer only writes well-formed records from well-formed words.

  predicate GoodWords(words: seq<Word>) {
    forall i | 0 <= i < |words| :: GoodText(words[i].0)
  }

  /** Every recognized word is non-empty and free of whitespace. */
  predicate GoodResponse(response: Response) {
    forall r, a | 0 <= r < |response| && 0 <= a < |response[r]| :: GoodWords(response[r][a])
  }

  predicate StateOk(s: State, offset: int) {
    s.start + offset >= 0 && s.end + offset >= 0 &&
    (forall i | 0 <= i < |s.chunk| :: GoodText(s.chunk[i])) && RecordsOk(s.records)
  }

  lemma AfterWordOk(s: State, w: Word, offset: int)
    requires StateOk(s, offset) && GoodText(w.0)
    ensures StateOk(AfterWord(s, w, offset), offset)
  {
    var t := AfterWord(s, w, offset);
    if w.1 >= s.start && w.1 < s.end {
      assert t.chunk == s.chunk + [w.0];
    } else {
      var r := Window(s.start + offset, s.end + offset, s.chunk);
      assert RecordOk(r);
      assert t.records == s.records + [r];
    }
  }

  lemma {:induction false} AfterWordsOk(s: State, words: seq<Word>, offset: int)
    requires StateOk(s, offset) && GoodWords(words)
    ensures StateOk(AfterWords(s, words, offset), offset)
    decreases |words|
  {
    if words != [] {
      var n := |words| - 1;
      assert GoodWords(words[..n]) by {
        forall i | 0 <= i < n ensures GoodText(words[..n][i].0) {
          assert words[..n][i] == words[i];
        }
      }
      AfterWordsOk(s, words[..n], offset);
      assert GoodText(words[n].0);
      AfterWordOk(AfterWords(s, words[..n], offset), words[n], offset);
    }
  }

  lemma AfterAlternativeOk(s: State, words: seq<Word>, offset: int)
    requires StateOk(s, offset) && GoodWords(words)
    ensures StateOk(AfterAlternative(s, words, offset), offset)
  {
    AfterWordsOk(s, words, offset);
    var t := AfterWords(s, words, offset);
    if |t.chunk| > 0 {
      var r := Tail(t.end + offset, t.chunk);
      assert RecordOk(r);
      assert AfterAlternative(s, words, offset).records == t.records + [r];
    }
  }

  lemma {:induction false} AfterAlternativesOk(s: State, alternatives: seq<seq<Word>>, offset: int)
    requires StateOk(s, offset) && forall a | 0 <= a < |alternatives| :: GoodWords(alternatives[a])
    ensures StateOk(AfterAlternatives(s, alternatives, offset), offset)
    decreases |alternatives|
  {
    if alternatives != [] {
      var n := |alternatives| - 1;
      assert forall a | 0 <= a < n :: alternatives[..n][a] == alternatives[a];
      AfterAlternativesOk(s, alternatives[..n], offset);
      AfterAlternativeOk(AfterAlternatives(s, alternatives[..n], offset), alternatives[n], offset);
    }
  }

  lemma {:induction false} AfterResultsOk(results: Response, offset: int)
    requires offset >= 0 && GoodResponse(results)
    ensures StateOk(AfterResults(Initial, results, offset), offset)
    decreases |results|
  {
    if results != [] {
      var n := |results| - 1;
      assert GoodResponse(results[..n]) by {
        forall r, a | 0 <= r < n && 0 <= a < |results[..n][r]| ensures GoodWords(results[..n][r][a]) {
          assert results[..n][r] == results[r];
        }
      }
      AfterResultsOk(results[..n], offset);
      AfterAlternativesOk(AfterResults(Initial, results[..n], offset), results[n], offset);
    }
  }

  /** The round trip: with a non-negative offset and words that are non-empty
      and free of whitespace, parsing the file `transcribe_audio` writes gives
      one entry per record, holding the header's two numbers (`EOF` as the end
      of a terminal record) and the record's joined words. */
  lemma RoundTrip(response: Response, offset: int)
    requires offset >= 0 && GoodResponse(response)
    ensures Parse(ReadLines(Lines(Records(response, offset)))) == Ok(Cues(Records(response, offset)))
  {
    AfterResultsOk(response, offset);
    ParseLines(Records(response, offset));
  }

  // ---------------------------------------------------------------------
  // The upload

  /** `os.path.basename(transcription_file).split('.')[0]` (line 46). */
  function AudioFileName(transcriptionFile: string): (r: string)
    ensures match IndexOf(Basename(transcriptionFile), '.')
      case Some(i) => r == Basename(transcriptionFile)[..i]
      case None => r == Basename(transcriptionFile)
  {
    Split(Basename(transcriptionFile), '.')[0]
  }

  /** Lines 46-60: the document stored in the "audio" bucket under
      `<file_name>_audio.json`, or the parse error. */
  function UploadAudioMetadata(store: Store, transcriptionFile: string, lines: seq<string>): (r: Result<Store>)
    ensures Parse(lines).Err? ==> r == Err(ValueError)
    ensures Parse(lines).Ok? && "audio" in store ==>
      var name := AudioFileName(transcriptionFile);
      r.Ok? && "audio" in r.value && ObjectName(name, "audio") in r.value["audio"] &&
      r.value["audio"][ObjectName(name, "audio")] == Document(name, "audio", None, Some(Parse(lines).value), None)
  {
    var fileNameWithoutExtension := AudioFileName(transcriptionFile);
    var parsed := Parse(lines);
    ParseError(lines);
    if parsed.Err? then Err(parsed.error)
    else
      var audioMetadata := Document(fileNameWithoutExtension, "audio", None, Some(parsed.value), None);
      Ok(Upload(store, "audio", ObjectName(fileNameWithoutExtension, "audio"), audioMetadata))
  }

  /** The object name of an audio document never equals the name the
      lookups build for type "mp3", and asking for it by its own type "audio"
      gets the invalid-request reply: the start-time search is never reached. */
  lemma AudioNotQueryable(store: Store, transcriptionFile: string, lines: seq<string>, other: string,
                          pageNumber: Option<int>, startTime: Option<string>)
    requires "audio" in store && Parse(lines).Ok?
    ensures ObjectName(other, "mp3") != ObjectName(AudioFileName(transcriptionFile), "audio")
    ensures var after := UploadAudioMetadata(store, transcriptionFile, lines).value;
      MinioDatabase.Lookup(after, "audio", AudioFileName(transcriptionFile), "audio", pageNumber, startTime) ==
        Ok(Some(MinioDatabase.InvalidRequest))
  {
    Mp3NotAudio(other, AudioFileName(transcriptionFile));
  }

  /** `_mp3.json` and `_audio.json` differ nine characters from the end. */
  lemma Mp3NotAudio(a: string, b: string)
    ensures ObjectName(a, "mp3") != ObjectName(b, "audio")
  {
    var x, y := ObjectName(a, "mp3"), ObjectName(b, "audio");
    assert x[|x| - 9..][0] == '_';
    assert y[|y| - 9..][0] == 'u';
  }
}
