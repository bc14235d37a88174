/** The time-bucketed transcript writer of `transcribe_audio` in
    Parser/dev/cloud/audio.py: words reported by the recognizer are grouped
    into 10-second windows and written as `start-end` / text line pairs,
    closed by a `end-EOF` pair after every alternative.

    The recognizer response is given as results -> alternatives -> words,
    each word with its start time in whole seconds. Because every window
    bound is an integer, comparing the floor of a fractional start time with
    the bounds gives the same answer as comparing the time itself. */
module Transcript {
  import opened Text

  /** One recognized word: its text and its start time in seconds. */
  type Word = (string, int)

  /** `response.results[r].alternatives[a].words[w]`. */
  type Response = seq<seq<seq<Word>>>

  /** `chunk_duration`: the width of every window, in seconds. */
  const ChunkDuration := 10

  /** One record of the transcript file, with its numbers as written
      (the start offset already added). */
  datatype Record =
    | Window(start: int, end: int, words: seq<string>)  // `start-end`
    | Tail(end: int, words: seq<string>)                // `end-EOF`

  /** The loop variables `current_start`, `current_end`, `chunk`, and the
      records written so far. */
  datatype State = State(start: int, end: int, chunk: seq<string>, records: seq<Record>)

  const Initial := State(0, ChunkDuration, [], [])

  /** One pass of the innermost loop body. */
  function AfterWord(s: State, w: Word, offset: int): State {
    if w.1 >= s.start && w.1 < s.end then
      s.(chunk := s.chunk + [w.0])
    else
      State(s.end, s.end + ChunkDuration, [w.0],
            s.records + [Window(s.start + offset, s.end + offset, s.chunk)])
  }

  function AfterWords(s: State, words: seq<Word>, offset: int): State
    decreases |words|
  {
    if words == [] then s
    else AfterWord(AfterWords(s, words[..|words| - 1], offset), words[|words| - 1], offset)
  }

  /** The words of one alternative, then the `EOF` record if `chunk` is not
      empty; `chunk` is not cleared afterwards. */
  function AfterAlternative(s: State, words: seq<Word>, offset: int): State {
    var t := AfterWords(s, words, offset);
    if |t.chunk| > 0 then t.(records := t.records + [Tail(t.end + offset, t.chunk)]) else t
  }

  function AfterAlternatives(s: State, alternatives: seq<seq<Word>>, offset: int): State
    decreases |alternatives|
  {
    if alternatives == [] then s
    else AfterAlternative(AfterAlternatives(s, alternatives[..|alternatives| - 1], offset),
                          alternatives[|alternatives| - 1], offset)
  }

  function AfterResults(s: State, results: Response, offset: int): State
    decreases |results|
  {
    if results == [] then s
    else AfterAlternatives(AfterResults(s, results[..|results| - 1], offset),
                           results[|results| - 1], offset)
  }

  /** The records `transcribe_audio` writes for `response` with `start_offset`. */
  function Records(response: Response, offset: int): seq<Record> {
    AfterResults(Initial, response, offset).records
  }

  function Header(r: Record): string {
    match r
    case Window(a, b, _) => IntToString(a) + "-" + IntToString(b)
    case Tail(b, _) => IntToString(b) + "-EOF"
  }

  /** The lines of the file: per record its header, then its words joined by
      single spaces. */
  function Lines(records: seq<Record>): (lines: seq<string>)
    ensures |lines| == 2 * |records|
  {
    if records == [] then []
    else Lines(records[..|records| - 1]) + [Header(records[|records| - 1]), Join(" ", records[|records| - 1].words)]
  }

  /** The nested loops of lines 50-75, writing the lines of the file. */
  method TranscribeAudio(response: Response, startOffset: int) returns (lines: seq<string>)
    ensures lines == Lines(Records(response, startOffset))
  {
    var currentStart := 0;
    var currentEnd := ChunkDuration;
    var chunk: seq<string> := [];
    ghost var records: seq<Record> := [];
    lines := [];
    for r := 0 to |response|
      invariant State(currentStart, currentEnd, chunk, records) == AfterResults(Initial, response[..r], startOffset)
      invariant lines == Lines(records)
    {
      ghost var beforeResult := State(currentStart, currentEnd, chunk, records);
      var alternatives := response[r];
      for a := 0 to |alternatives|
        invariant State(currentStart, currentEnd, chunk, records) == AfterAlternatives(beforeResult, alternatives[..a], startOffset)
        invariant lines == Lines(records)
      {
        AfterAlternativesStep(beforeResult, alternatives, a, startOffset);
        currentStart, currentEnd, chunk, lines, records :=
          WriteAlternative(alternatives[a], startOffset, currentStart, currentEnd, chunk, lines, records);
      }
      assert alternatives[..|alternatives|] == alternatives;
      AfterResultsStep(Initial, response, r, startOffset);
    }
    assert response[..|response|] == response;
  }

  /** Lines 58-75 for one alternative: its words, then the `EOF` record. */
  method WriteAlternative(words: seq<Word>, startOffset: int,
                          currentStart0: int, currentEnd0: int, chunk0: seq<string>,
                          lines0: seq<string>, ghost records0: seq<Record>)
    returns (currentStart: int, currentEnd: int, chunk: seq<string>, lines: seq<string>, ghost records: seq<Record>)
    requires lines0 == Lines(records0)
    ensures State(currentStart, currentEnd, chunk, records) ==
      AfterAlternative(State(currentStart0, currentEnd0, chunk0, records0), words, startOffset)
    ensures lines == Lines(records)
  {
    var duration := ChunkDuration;
    currentStart, currentEnd, chunk, lines, records := currentStart0, currentEnd0, chunk0, lines0, records0;
    ghost var start := State(currentStart, currentEnd, chunk, records);
    ghost var st := start;
    for w := 0 to |words|
      invariant st == AfterWords(start, words[..w], startOffset)
      invariant st.start == currentStart && st.end == currentEnd && st.chunk == chunk && st.records == records
      invariant lines == Lines(records)
    {
      AfterWordsStep(start, words, w, startOffset);
      var word, startTime := words[w].0, words[w].1;
      if !(startTime >= currentStart && startTime < currentEnd) {
        ghost var written := Window(currentStart + startOffset, currentEnd + startOffset, chunk);
        LinesAppend(records, written);
        lines := lines + [IntToString(currentStart + startOffset) + "-" + IntToString(currentEnd + startOffset), Join(" ", chunk)];
        records := records + [written];
        currentStart := currentEnd;
        currentEnd := currentEnd + duration;
        chunk := [];
      }
      chunk := chunk + [word];
      st := AfterWord(st, words[w], startOffset);
    }
    assert words[..|words|] == words;
    if |chunk| > 0 {
      ghost var written := Tail(currentEnd + startOffset, chunk);
      assert Header(written) == IntToString(currentEnd + startOffset) + "-EOF";
      LinesAppend(records, written);
      lines := lines + [IntToString(currentEnd + startOffset) + "-EOF", Join(" ", chunk)];
      records := records + [written];
    }
  }

  lemma LinesAppend(records: seq<Record>, r: Record)
    ensures Lines(records + [r]) == Lines(records) + [Header(r), Join(" ", r.words)]
  {
    assert (records + [r])[..|records|] == records;
  }

  /** Record k is written as lines 2k and 2k + 1. */
  lemma {:induction false} LinesAt(records: seq<Record>, k: nat)
    requires k < |records|
    ensures Lines(records)[2 * k] == Header(records[k])
    ensures Lines(records)[2 * k + 1] == Join(" ", records[k].words)
    decreases |records|
  {
    var n := |records| - 1;
    var earlier := Lines(records[..n]);
    assert Lines(records) == earlier + [Header(records[n]), Join(" ", records[n].words)];
    if k < n {
      LinesAt(records[..n], k);
      assert records[..n][k] == records[k];
      assert Lines(records)[2 * k] == earlier[2 * k];
      assert Lines(records)[2 * k + 1] == earlier[2 * k + 1];
    } else {
      assert |earlier| == 2 * k;
    }
  }

  lemma AfterWordsStep(s: State, words: seq<Word>, i: nat, offset: int)
    requires i < |words|
    ensures AfterWords(s, words[..i + 1], offset) == AfterWord(AfterWords(s, words[..i], offset), words[i], offset)
  {
    assert words[..i + 1][..i] == words[..i];
  }

  lemma AfterAlternativesStep(s: State, alternatives: seq<seq<Word>>, i: nat, offset: int)
    requires i < |alternatives|
    ensures AfterAlternatives(s, alternatives[..i + 1], offset) ==
      AfterAlternative(AfterAlternatives(s, alternatives[..i], offset), alternatives[i], offset)
  {
    assert alternatives[..i + 1][..i] == alternatives[..i];
  }

  lemma AfterResultsStep(s: State, results: Response, i: nat, offset: int)
    requires i < |results|
    ensures AfterResults(s, results[..i + 1], offset) ==
      AfterAlternatives(AfterResults(s, results[..i], offset), results[i], offset)
  {
    assert results[..i + 1][..i] == results[..i];
  }

  // ---------------------------------------------------------------------
  // Where the records lie on the time line

  /** The `(start, end)` of the `start-end` records, in file order. */
  function WindowBounds(records: seq<Record>): (bounds: seq<(int, int)>)
    ensures |bounds| <= |records|
  {
    if records == [] then []
    else
      var last := records[|records| - 1];
      WindowBounds(records[..|records| - 1]) + (if last.Window? then [(last.start, last.end)] else [])
  }

  /** The k-th `start-end` record (from 0) covers `[10k + O, 10k + 10 + O)`, and an
      `end-EOF` record written after k windows says `10k + 10 + O`: the end of
      the window it would have been, not its start. */
  ghost predicate Placed(records: seq<Record>, offset: int) {
    WindowsPlaced(records, offset) && TailsPlaced(records, offset)
  }

  ghost predicate WindowsPlaced(records: seq<Record>, offset: int) {
    forall k | 0 <= k < |WindowBounds(records)| ::
      WindowBounds(records)[k] == (ChunkDuration * k + offset, ChunkDuration * k + ChunkDuration + offset)
  }

  ghost predicate TailsPlaced(records: seq<Record>, offset: int) {
    forall i | 0 <= i < |records| && records[i].Tail? ::
      records[i].end == ChunkDuration * |WindowBounds(records[..i])| + ChunkDuration + offset
  }

  ghost predicate Good(s: State, offset: int) {
    s.start == ChunkDuration * |WindowBounds(s.records)| &&
    s.end == s.start + ChunkDuration &&
    Placed(s.records, offset)
  }

  lemma AppendBounds(records: seq<Record>, r: Record)
    ensures WindowBounds(records + [r]) == WindowBounds(records) + (if r.Window? then [(r.start, r.end)] else [])
  {
    assert (records + [r])[..|records|] == records;
  }

  lemma AppendPlaced(records: seq<Record>, r: Record, offset: int)
    requires Placed(records, offset)
    requires r.Window? ==> r.start == ChunkDuration * |WindowBounds(records)| + offset && r.end == r.start + ChunkDuration
    requires r.Tail? ==> r.end == ChunkDuration * |WindowBounds(records)| + ChunkDuration + offset
    ensures Placed(records + [r], offset)
    ensures |WindowBounds(records + [r])| == |WindowBounds(records)| + (if r.Window? then 1 else 0)
  {
    AppendBounds(records, r);
    AppendWindowsPlaced(records, r, offset);
    AppendTailsPlaced(records, r, offset);
  }

  lemma AppendWindowsPlaced(records: seq<Record>, r: Record, offset: int)
    requires WindowsPlaced(records, offset)
    requires r.Window? ==> r.start == ChunkDuration * |WindowBounds(records)| + offset && r.end == r.start + ChunkDuration
    ensures WindowsPlaced(records + [r], offset)
  {
    var all := records + [r];
    var wb := WindowBounds(records);
    AppendBounds(records, r);
    forall k | 0 <= k < |WindowBounds(all)|
      ensures WindowBounds(all)[k] == (ChunkDuration * k + offset, ChunkDuration * k + ChunkDuration + offset)
    {
      if k < |wb| {
        assert WindowBounds(all)[k] == wb[k];
      }
    }
  }

  lemma AppendTailsPlaced(records: seq<Record>, r: Record, offset: int)
    requires TailsPlaced(records, offset)
    requires r.Tail? ==> r.end == ChunkDuration * |WindowBounds(records)| + ChunkDuration + offset
    ensures TailsPlaced(records + [r], offset)
  {
    var all := records + [r];
    forall i | 0 <= i < |all| && all[i].Tail?
      ensures all[i].end == ChunkDuration * |WindowBounds(all[..i])| + ChunkDuration + offset
    {
      PrefixOfAppend(records, r, i);
    }
  }

  lemma PrefixOfAppend(records: seq<Record>, r: Record, i: nat)
    requires i <= |records|
    ensures (records + [r])[..i] == records[..i]
    ensures i < |records| ==> (records + [r])[i] == records[i]
  {
  }

  lemma AfterWordGood(s: State, w: Word, offset: int)
    requires Good(s, offset)
    ensures Good(AfterWord(s, w, offset), offset)
  {
    var t := AfterWord(s, w, offset);
    if w.1 >= s.start && w.1 < s.end {
      assert t.records == s.records && t.start == s.start && t.end == s.end;
    } else {
      var r := Window(s.start + offset, s.end + offset, s.chunk);
      AppendPlaced(s.records, r, offset);
      assert t == State(s.end, s.end + ChunkDuration, [w.0], s.records + [r]);
    }
  }

  lemma {:induction false} AfterWordsGood(s: State, words: seq<Word>, offset: int)
    requires Good(s, offset)
    ensures Good(AfterWords(s, words, offset), offset)
    decreases |words|
  {
    if words != [] {
      AfterWordsGood(s, words[..|words| - 1], offset);
      AfterWordGood(AfterWords(s, words[..|words| - 1], offset), words[|words| - 1], offset);
    }
  }

  lemma AfterAlternativeGood(s: State, words: seq<Word>, offset: int)
    requires Good(s, offset)
    ensures Good(AfterAlternative(s, words, offset), offset)
  {
    AfterWordsGood(s, words, offset);
    var t := AfterWords(s, words, offset);
    if |t.chunk| > 0 {
      var u := t.(records := t.records + [Tail(t.end + offset, t.chunk)]);
      assert AfterAlternative(s, words, offset) == u;
      AppendPlaced(t.records, Tail(t.end + offset, t.chunk), offset);
      assert Good(u, offset);
    } else {
      assert AfterAlternative(s, words, offset) == t;
    }
  }

  lemma {:induction false} AfterAlternativesGood(s: State, alternatives: seq<seq<Word>>, offset: int)
    requires Good(s, offset)
    ensures Good(AfterAlternatives(s, alternatives, offset), offset)
    decreases |alternatives|
  {
    if alternatives != [] {
      var n := |alternatives| - 1;
      AfterAlternativesGood(s, alternatives[..n], offset);
      AfterAlternativeGood(AfterAlternatives(s, alternatives[..n], offset), alternatives[n], offset);
    }
  }

  lemma {:induction false} AfterResultsGood(s: State, results: Response, offset: int)
    requires Good(s, offset)
    ensures Good(AfterResults(s, results, offset), offset)
    decreases |results|
  {
    if results != [] {
      var n := |results| - 1;
      AfterResultsGood(s, results[..n], offset);
      AfterAlternativesGood(AfterResults(s, results[..n], offset), results[n], offset);
    }
  }

  /** Headers form consecutive, non-overlapping windows of width exactly 10
      starting at the offset, and every `EOF` header carries the end of the
      window that was open, for any response. */
  lemma RecordsPlaced(response: Response, offset: int)
    ensures Placed(Records(response, offset), offset)
    ensures var b := WindowBounds(Records(response, offset));
      forall k | 0 <= k < |b| - 1 :: b[k].1 == b[k + 1].0 && b[k].1 - b[k].0 == ChunkDuration
  {
    AfterResultsGood(Initial, response, offset);
  }

  // ---------------------------------------------------------------------
  // What the records contain

  /** Every alternative of every result has no words. */
  predicate Silent(response: Response) {
    forall r, a | 0 <= r < |response| && 0 <= a < |response[r]| :: response[r][a] == []
  }

  lemma {:induction false} SilentAlternatives(s: State, alternatives: seq<seq<Word>>, offset: int)
    requires s.chunk == []
    requires forall a | 0 <= a < |alternatives| :: alternatives[a] == []
    ensures AfterAlternatives(s, alternatives, offset) == s
    decreases |alternatives|
  {
    if alternatives != [] {
      SilentAlternatives(s, alternatives[..|alternatives| - 1], offset);
    }
  }

  lemma {:induction false} SilentResults(results: Response, offset: int)
    requires Silent(results)
    ensures AfterResults(Initial, results, offset) == Initial
    decreases |results|
  {
    if results != [] {
      var n := |results| - 1;
      assert Silent(results[..n]) by {
        forall r, a | 0 <= r < n && 0 <= a < |results[..n][r]| ensures results[..n][r][a] == [] {
          assert results[..n][r] == results[r];
        }
      }
      SilentResults(results[..n], offset);
      SilentAlternatives(Initial, results[n], offset);
    }
  }

  /** A response with no words writes nothing. */
  lemma NoWordsNoRecords(response: Response, offset: int)
    requires Silent(response)
    ensures Records(response, offset) == []
  {
    SilentResults(response, offset);
  }

  /** The words of the records, concatenated in file order. */
  function WordsOf(records: seq<Record>): seq<string> {
    if records == [] then []
    else WordsOf(records[..|records| - 1]) + records[|records| - 1].words
  }

  /** The texts of a sequence of words. */
  function Texts(words: seq<Word>): (texts: seq<string>)
    ensures |texts| == |words| && forall i | 0 <= i < |words| :: texts[i] == words[i].0
  {
    seq(|words|, i requires 0 <= i < |words| => words[i].0)
  }

  lemma WordsOfAppend(records: seq<Record>, r: Record)
    ensures WordsOf(records + [r]) == WordsOf(records) + r.words
  {
    assert (records + [r])[..|records|] == records;
  }

  lemma {:induction false} AfterWordsKeepsWords(s: State, words: seq<Word>, offset: int)
    ensures var t := AfterWords(s, words, offset);
      WordsOf(t.records) + t.chunk == WordsOf(s.records) + s.chunk + Texts(words)
    decreases |words|
  {
    if words == [] {
      assert Texts(words) == [];
    } else {
      var n := |words| - 1;
      AfterWordsKeepsWords(s, words[..n], offset);
      var u := AfterWords(s, words[..n], offset);
      assert Texts(words) == Texts(words[..n]) + [words[n].0];
      assert AfterWords(s, words, offset) == AfterWord(u, words[n], offset);
      AfterWordKeepsWords(u, words[n], offset);
      AppendAssoc(WordsOf(s.records) + s.chunk, Texts(words[..n]), [words[n].0]);
    }
  }

  /** One word lands at the end of the words written or pending. */
  lemma AfterWordKeepsWords(s: State, w: Word, offset: int)
    ensures var t := AfterWord(s, w, offset);
      WordsOf(t.records) + t.chunk == WordsOf(s.records) + s.chunk + [w.0]
  {
    if !(w.1 >= s.start && w.1 < s.end) {
      WordsOfAppend(s.records, Window(s.start + offset, s.end + offset, s.chunk));
    }
  }

  lemma OneAlternative(words: seq<Word>, offset: int)
    ensures AfterResults(Initial, [[words]], offset) == AfterAlternative(Initial, words, offset)
  {
    var alternatives: seq<seq<Word>> := [words];
    var response: Response := [alternatives];
    assert response[..0] == [] && alternatives[..0] == [];
    assert AfterResults(Initial, response, offset) == AfterAlternatives(Initial, alternatives, offset);
    assert AfterAlternatives(Initial, alternatives, offset) == AfterAlternative(Initial, words, offset);
  }

  /** For a single result with a single alternative, every word lands in
      exactly one record, in arrival order. */
  lemma SingleAlternativeWords(words: seq<Word>, offset: int)
    ensures WordsOf(Records([[words]], offset)) == Texts(words)
  {
    OneAlternative(words, offset);
    AfterWordsKeepsWords(Initial, words, offset);
    var t := AfterWords(Initial, words, offset);
    if |t.chunk| > 0 {
      WordsOfAppend(t.records, Tail(t.end + offset, t.chunk));
    }
  }

  // ---------------------------------------------------------------------
  // The edge cases of the loop, on small inputs

  lemma AfterWordsSnoc(s: State, words: seq<Word>, w: Word, offset: int)
    ensures AfterWords(s, words + [w], offset) == AfterWord(AfterWords(s, words, offset), w, offset)
  {
    assert (words + [w])[..|words|] == words;
  }

  lemma AfterAlternativesSnoc(s: State, alternatives: seq<seq<Word>>, words: seq<Word>, offset: int)
    ensures AfterAlternatives(s, alternatives + [words], offset) ==
      AfterAlternative(AfterAlternatives(s, alternatives, offset), words, offset)
  {
    assert (alternatives + [words])[..|alternatives|] == alternatives;
  }

  lemma AfterResultsSnoc(s: State, results: Response, alternatives: seq<seq<Word>>, offset: int)
    ensures AfterResults(s, results + [alternatives], offset) ==
      AfterAlternatives(AfterResults(s, results, offset), alternatives, offset)
  {
    assert (results + [alternatives])[..|results|] == results;
  }

  /** A lone word inside the first window gives one `10-EOF` record; anywhere
      else (however far ahead, or before 0) it first flushes an empty `0-10`
      record and is then reported under `20-EOF`: the window advances one step
      only. */
  lemma LoneWord(x: string, t: int, offset: int)
    ensures Records([[[(x, t)]]], offset) ==
      if 0 <= t < ChunkDuration then [Tail(ChunkDuration + offset, [x])]
      else [Window(offset, ChunkDuration + offset, []), Tail(2 * ChunkDuration + offset, [x])]
  {
    var none: seq<Word> := [];
    OneAlternative([(x, t)], offset);
    AfterWordsSnoc(Initial, none, (x, t), offset);
    assert none + [(x, t)] == [(x, t)];
    var u := AfterWords(Initial, [(x, t)], offset);
    if 0 <= t < ChunkDuration {
      assert u == State(0, ChunkDuration, [x], []);
    } else {
      assert u == State(ChunkDuration, 2 * ChunkDuration, [x], [Window(offset, ChunkDuration + offset, [])]);
    }
  }

  /** Words at 2 s, 12 s and 22 s: two full windows, then the terminal record
      labelled `30`, the end of the open window. */
  lemma ThreeSpacedWords()
    ensures Lines(Records([[[("a", 2), ("b", 12), ("c", 22)]]], 0)) ==
      ["0-10", "a", "10-20", "b", "30-EOF", "c"]
  {
    ThreeSpacedRecords();
    LinesOfThree(Window(0, 10, ["a"]), Window(10, 20, ["b"]), Tail(30, ["c"]));
    ThreeSpacedHeaders();
    assert Join(" ", ["a"]) == "a" && Join(" ", ["b"]) == "b" && Join(" ", ["c"]) == "c";
  }

  lemma LinesOfThree(r0: Record, r1: Record, r2: Record)
    ensures Lines([r0, r1, r2]) ==
      [Header(r0), Join(" ", r0.words), Header(r1), Join(" ", r1.words), Header(r2), Join(" ", r2.words)]
  {
    var recs := [r0, r1, r2];
    var none: seq<Record> := [];
    LinesAppend(none, r0);
    assert none + [r0] == recs[..1];
    LinesAppend(recs[..1], r1);
    assert recs[..1] + [r1] == recs[..2];
    LinesAppend(recs[..2], r2);
    assert recs[..2] + [r2] == recs;
  }

  lemma ThreeSpacedRecords()
    ensures Records([[[("a", 2), ("b", 12), ("c", 22)]]], 0) ==
      [Window(0, 10, ["a"]), Window(10, 20, ["b"]), Tail(30, ["c"])]
  {
    var none: seq<Word> := [];
    var words: seq<Word> := [("a", 2), ("b", 12), ("c", 22)];
    OneAlternative(words, 0);
    AfterWordsSnoc(Initial, none, ("a", 2), 0);
    assert none + [("a", 2)] == [("a", 2)];
    assert AfterWords(Initial, [("a", 2)], 0) == State(0, 10, ["a"], []);
    AfterWordsSnoc(Initial, [("a", 2)], ("b", 12), 0);
    assert [("a", 2)] + [("b", 12)] == [("a", 2), ("b", 12)];
    assert AfterWords(Initial, [("a", 2), ("b", 12)], 0) == State(10, 20, ["b"], [Window(0, 10, ["a"])]);
    AfterWordsSnoc(Initial, [("a", 2), ("b", 12)], ("c", 22), 0);
    assert [("a", 2), ("b", 12)] + [("c", 22)] == words;
    assert AfterWords(Initial, words, 0) == State(20, 30, ["c"], [Window(0, 10, ["a"]), Window(10, 20, ["b"])]);
  }

  lemma ThreeSpacedHeaders()
    ensures Header(Window(0, 10, ["a"])) == "0-10"
    ensures Header(Window(10, 20, ["b"])) == "10-20"
    ensures Header(Tail(30, ["c"])) == "30-EOF"
  {
    TwoDigits(1);
    TwoDigits(2);
    TwoDigits(3);
    assert IntToString(0) == "0";
    assert DigitChar(1) == '1' && DigitChar(2) == '2' && DigitChar(3) == '3';
  }

  lemma TwoDigits(d: nat)
    requires 1 <= d <= 9
    ensures IntToString(10 * d) == [DigitChar(d), '0']
  {
    assert (10 * d) / 10 == d && (10 * d) % 10 == 0;
    assert NatToString(d) == [DigitChar(d)];
    assert DigitChar(0) == '0';
  }

  /** `chunk` survives the `EOF` flush: the word of the first result is
      written again in the next result's first window, which comes after an
      `EOF` record in the file. */
  lemma ChunkSurvivesTail()
    ensures Records([[[("a", 0)]], [[("b", 15)]]], 0) ==
      [Tail(10, ["a"]), Window(0, 10, ["a"]), Tail(20, ["b"])]
  {
    var none: seq<Word> := [];
    var noAlternatives: seq<seq<Word>> := [];
    var noResults: Response := [];
    var r0: seq<seq<Word>>, r1: seq<seq<Word>> := [[("a", 0)]], [[("b", 15)]];
    AfterWordsSnoc(Initial, none, ("a", 0), 0);
    assert none + [("a", 0)] == [("a", 0)];
    assert AfterWords(Initial, [("a", 0)], 0) == State(0, 10, ["a"], []);
    AfterAlternativesSnoc(Initial, noAlternatives, [("a", 0)], 0);
    assert noAlternatives + [[("a", 0)]] == r0;
    assert AfterAlternatives(Initial, r0, 0) == State(0, 10, ["a"], [Tail(10, ["a"])]);
    AfterResultsSnoc(Initial, noResults, r0, 0);
    assert noResults + [r0] == [r0];
    var s0 := AfterResults(Initial, [r0], 0);
    assert s0 == State(0, 10, ["a"], [Tail(10, ["a"])]);
    var first: Response := [r0];
    AfterResultsSnoc(Initial, first, r1, 0);
    assert first + [r1] == [r0, r1];
    AfterAlternativesSnoc(s0, noAlternatives, [("b", 15)], 0);
    assert noAlternatives + [[("b", 15)]] == r1;
    AfterWordsSnoc(s0, none, ("b", 15), 0);
  }

  /** A word earlier than the open window also flushes and advances: `b` at
      3 s is written under `30-EOF`. */
  lemma EarlyWordMisplaced()
    ensures Records([[[("a", 15), ("b", 3)]]], 0) ==
      [Window(0, 10, []), Window(10, 20, ["a"]), Tail(30, ["b"])]
  {
    var none: seq<Word> := [];
    var words: seq<Word> := [("a", 15), ("b", 3)];
    OneAlternative(words, 0);
    AfterWordsSnoc(Initial, none, ("a", 15), 0);
    assert none + [("a", 15)] == [("a", 15)];
    assert AfterWords(Initial, [("a", 15)], 0) == State(10, 20, ["a"], [Window(0, 10, [])]);
    AfterWordsSnoc(Initial, [("a", 15)], ("b", 3), 0);
    assert [("a", 15)] + [("b", 3)] == words;
  }
}
