/** `transcribe_audio` in speech_test/speech_to_text_trial.py (lines 35-58):
    the first version of the time-bucketed writer, with the same windows, the
    same `EOF` record and the same chunk that is not cleared, but without a
    start offset. Its file is therefore the one the cloud writer produces with
    `start_offset = 0`, and the cloud writer's offset only moves every number
    it writes. */
module SpeechTrial {
  import opened Text
  import opened Transcript

  /** The three nested loops of lines 39-58. */
  method TranscribeTrial(response: Response) returns (lines: seq<string>)
    ensures lines == Lines(Records(response, 0))
  {
    var currentStart := 0;
    var duration := 10;
    var currentEnd := duration;
    var chunk: seq<string> := [];
    ghost var records: seq<Record> := [];
    lines := [];
    for r := 0 to |response|
      invariant State(currentStart, currentEnd, chunk, records) == AfterResults(Initial, response[..r], 0)
      invariant lines == Lines(records)
    {
      ghost var beforeResult := State(currentStart, currentEnd, chunk, records);
      var alternatives := response[r];
      for a := 0 to |alternatives|
        invariant State(currentStart, currentEnd, chunk, records) == AfterAlternatives(beforeResult, alternatives[..a], 0)
        invariant lines == Lines(records)
      {
        AfterAlternativesStep(beforeResult, alternatives, a, 0);
        currentStart, currentEnd, chunk, lines, records :=
          WriteWords(alternatives[a], currentStart, currentEnd, chunk, lines, records);
        if |chunk| > 0 {
          ghost var written := Tail(currentEnd, chunk);
          LinesAppend(records, written);
          lines := lines + [IntToString(currentEnd) + "-EOF", Join(" ", chunk)];
          records := records + [written];
        }
      }
      assert alternatives[..|alternatives|] == alternatives;
      AfterResultsStep(Initial, response, r, 0);
    }
    assert response[..|response|] == response;
  }

  /** Lines 42-53: the words of one alternative. */
  method WriteWords(words: seq<Word>, currentStart0: int, currentEnd0: int, chunk0: seq<string>,
                    lines0: seq<string>, ghost records0: seq<Record>)
    returns (currentStart: int, currentEnd: int, chunk: seq<string>, lines: seq<string>, ghost records: seq<Record>)
    requires lines0 == Lines(records0)
    ensures State(currentStart, currentEnd, chunk, records) ==
      AfterWords(State(currentStart0, currentEnd0, chunk0, records0), words, 0)
    ensures lines == Lines(records)
  {
    var duration := 10;
    currentStart, currentEnd, chunk, lines, records := currentStart0, currentEnd0, chunk0, lines0, records0;
    ghost var start := State(currentStart, currentEnd, chunk, records);
    for w := 0 to |words|
      invariant State(currentStart, currentEnd, chunk, records) == AfterWords(start, words[..w], 0)
      invariant lines == Lines(records)
    {
      AfterWordsStep(start, words, w, 0);
      var word, startTime := words[w].0, words[w].1;
      if !(startTime >= currentStart && startTime < currentEnd) {
        ghost var written := Window(currentStart, currentEnd, chunk);
        LinesAppend(records, written);
        lines := lines + [IntToString(currentStart) + "-" + IntToString(currentEnd), Join(" ", chunk)];
        records := records + [written];
        currentStart := currentEnd;
        currentEnd := currentEnd + duration;
        chunk := [];
      }
      chunk := chunk + [word];
    }
    assert words[..|words|] == words;
  }

  // ---------------------------------------------------------------------
  // The start offset of the cloud writer only moves the numbers

  function ShiftRecord(r: Record, offset: int): (s: Record)
    ensures s.words == r.words && s.Window? == r.Window?
  {
    match r
    case Window(a, b, words) => Window(a + offset, b + offset, words)
    case Tail(b, words) => Tail(b + offset, words)
  }

  /** Every record moved by `offset` seconds, in the same order. */
  function Shift(records: seq<Record>, offset: int): (shifted: seq<Record>)
    ensures |shifted| == |records|
  {
    if records == [] then []
    else Shift(records[..|records| - 1], offset) + [ShiftRecord(records[|records| - 1], offset)]
  }

  function ShiftState(s: State, offset: int): State {
    s.(records := Shift(s.records, offset))
  }

  lemma ShiftAppend(records: seq<Record>, r: Record, offset: int)
    ensures Shift(records + [r], offset) == Shift(records, offset) + [ShiftRecord(r, offset)]
  {
    assert (records + [r])[..|records|] == records;
  }

  lemma ShiftWord(s: State, w: Word, offset: int)
    ensures AfterWord(ShiftState(s, offset), w, offset) == ShiftState(AfterWord(s, w, 0), offset)
  {
    ShiftAppend(s.records, Window(s.start, s.end, s.chunk), offset);
  }

  lemma {:induction false} ShiftWords(s: State, words: seq<Word>, offset: int)
    ensures AfterWords(ShiftState(s, offset), words, offset) == ShiftState(AfterWords(s, words, 0), offset)
    decreases |words|
  {
    if words != [] {
      var front := words[..|words| - 1];
      ShiftWords(s, front, offset);
      ShiftWord(AfterWords(s, front, 0), words[|words| - 1], offset);
    }
  }

  lemma ShiftAlternative(s: State, words: seq<Word>, offset: int)
    ensures AfterAlternative(ShiftState(s, offset), words, offset) == ShiftState(AfterAlternative(s, words, 0), offset)
  {
    ShiftWords(s, words, offset);
    var t := AfterWords(s, words, 0);
    ShiftAppend(t.records, Tail(t.end, t.chunk), offset);
  }

  lemma {:induction false} ShiftAlternatives(s: State, alternatives: seq<seq<Word>>, offset: int)
    ensures AfterAlternatives(ShiftState(s, offset), alternatives, offset) ==
      ShiftState(AfterAlternatives(s, alternatives, 0), offset)
    decreases |alternatives|
  {
    if alternatives != [] {
      var front := alternatives[..|alternatives| - 1];
      ShiftAlternatives(s, front, offset);
      ShiftAlternative(AfterAlternatives(s, front, 0), alternatives[|alternatives| - 1], offset);
    }
  }

  lemma {:induction false} ShiftResults(s: State, results: Response, offset: int)
    ensures AfterResults(ShiftState(s, offset), results, offset) == ShiftState(AfterResults(s, results, 0), offset)
    decreases |results|
  {
    if results != [] {
      var front := results[..|results| - 1];
      ShiftResults(s, front, offset);
      ShiftAlternatives(AfterResults(s, front, 0), results[|results| - 1], offset);
    }
  }

  /** What the cloud writer records with `start_offset = o` is what the trial
      records, every number moved by `o`. */
  lemma OffsetShifts(response: Response, offset: int)
    ensures Records(response, offset) == Shift(Records(response, 0), offset)
  {
    assert ShiftState(Initial, offset) == Initial;
    ShiftResults(Initial, response, offset);
  }

  /** Record k of the shifted file is record k of the unshifted one, moved. */
  lemma {:induction false} ShiftAt(records: seq<Record>, offset: int, k: nat)
    requires k < |records|
    ensures Shift(records, offset)[k] == ShiftRecord(records[k], offset)
    decreases |records|
  {
    var n := |records| - 1;
    var front := records[..n];
    assert Shift(records, offset) == Shift(front, offset) + [ShiftRecord(records[n], offset)];
    if k < n {
      ShiftAt(front, offset, k);
      assert front[k] == records[k];
    } else {
      assert |Shift(front, offset)| == k;
    }
  }
}
