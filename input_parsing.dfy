/** `InputParsing.parse_files` in my-project/src/my_project/input_parsing.py
    (lines 43-82): rounds of listing the input directory, dispatching every
    file not yet processed by its MIME type, uploading what the parsers
    return and marking the dispatched files as processed, until a round finds
    nothing new.

    What the environment answers is a parameter: the listing of each round
    (`os.listdir`, which may change while the loop runs), `mimetypes.guess_type`
    and the three parsers, which are stubs in the source. The `while True`
    loop is run for at most `fuel` rounds. The uploads received by the MinIO
    interface are kept as a log, in order. */
module InputParsing {
  import opened Results
  import opened Text

  /** A JSON object handed to `upload_json`; its keys are the parsers' business. */
  type Json = map<string, string>

  datatype Env = Env(
    listing: nat -> seq<string>,           // `os.listdir(input_directory)` in each round
    guessType: string -> Option<string>,   // `mimetypes.guess_type(path)[0]`
    parseImgPdf: string -> Json,           // `parsing_img_pdf`
    parseAudioVideo: string -> string,     // `parsing_audio_video`
    splitAudioVideo: string -> seq<Json>)  // `split_audio_video`

  /** The four branches of lines 63-79. */
  datatype Kind = Undetermined | Document | Media | Unrecognised

  function KindOf(fileType: Option<string>): Kind {
    match fileType
    case None => Undetermined
    case Some(t) =>
      if IsDocumentType(t) then Document
      else if IsMediaType(t) then Media
      else Unrecognised
  }

  /** Line 67. */
  predicate IsDocumentType(t: string) {
    t == "application/pdf" || StartsWith(t, "image")
  }

  /** Line 71. */
  predicate IsMediaType(t: string) {
    StartsWith(t, "audio") || StartsWith(t, "video")
  }

  /** `processed_files` and the uploads made so far. */
  datatype State = State(processed: set<string>, uploads: seq<Json>)

  /** Line 52: the listed files not processed yet, in listing order. */
  function Unprocessed(files: seq<string>, processed: set<string>): seq<string> {
    if files == [] then []
    else
      var f := files[|files| - 1];
      Unprocessed(files[..|files| - 1], processed) + (if f in processed then [] else [f])
  }

  /** The files left are exactly the listed ones not processed. */
  lemma {:induction false} UnprocessedMembers(files: seq<string>, processed: set<string>)
    ensures var r := Unprocessed(files, processed);
      (forall i | 0 <= i < |r| :: r[i] !in processed && r[i] in files) &&
      (forall i | 0 <= i < |files| :: files[i] in processed || files[i] in r)
    decreases |files|
  {
    if files != [] {
      var front := files[..|files| - 1];
      UnprocessedMembers(front, processed);
      assert forall i | 0 <= i < |front| :: front[i] == files[i];
    }
  }

  /** What the dispatch of one file uploads. */
  function Uploads(directory: string, fileName: string, env: Env): seq<Json> {
    var path := PathJoin(directory, fileName);
    match KindOf(env.guessType(path))
    case Document => [env.parseImgPdf(path)]
    case Media => env.splitAudioVideo(env.parseAudioVideo(path))
    case _ => []
  }

  /** Lines 60-82 for one file. */
  function Dispatch(s: State, directory: string, fileName: string, env: Env): State {
    var kind := KindOf(env.guessType(PathJoin(directory, fileName)));
    if kind == Document || kind == Media then
      State(s.processed + {fileName}, s.uploads + Uploads(directory, fileName, env))
    else s
  }

  function DispatchAll(s: State, directory: string, files: seq<string>, env: Env): State {
    if files == [] then s
    else Dispatch(DispatchAll(s, directory, files[..|files| - 1], env), directory, files[|files| - 1], env)
  }

  /** One pass of the `while` body past the check of line 55. */
  function Round(s: State, directory: string, files: seq<string>, env: Env): State {
    DispatchAll(s, directory, Unprocessed(files, s.processed), env)
  }

  /** The state the loop ends in, whether it left through the `break` of
      line 57, and the round it was in. */
  datatype Outcome = Outcome(state: State, finished: bool, rounds: nat)

  /** The loop from round `round` on, with rounds up to `fuel`. */
  function Run(s: State, directory: string, env: Env, round: nat, fuel: nat): Outcome
    decreases fuel - round
  {
    if round >= fuel then Outcome(s, false, round)
    else if Unprocessed(env.listing(round), s.processed) == [] then Outcome(s, true, round)
    else Run(Round(s, directory, env.listing(round), env), directory, env, round + 1, fuel)
  }

  class FileParser {
    var inputDirectory: string
    var processedFiles: set<string>
    var uploads: seq<Json>

    /** Lines 5-14. */
    constructor (inputDirectory: string)
      ensures this.inputDirectory == inputDirectory && processedFiles == {} && uploads == []
    {
      this.inputDirectory := inputDirectory;
      processedFiles := {};
      uploads := [];
    }

    /** Lines 43-82, for at most `fuel` rounds. */
    method ParseFiles(env: Env, fuel: nat) returns (finished: bool, rounds: nat)
      modifies this
      ensures inputDirectory == old(inputDirectory)
      ensures Outcome(State(processedFiles, uploads), finished, rounds) ==
        Run(State(old(processedFiles), old(uploads)), inputDirectory, env, 0, fuel)
    {
      rounds := 0;
      while rounds < fuel
        invariant rounds <= fuel && inputDirectory == old(inputDirectory)
        invariant Run(State(processedFiles, uploads), inputDirectory, env, rounds, fuel) ==
          Run(State(old(processedFiles), old(uploads)), inputDirectory, env, 0, fuel)
        decreases fuel - rounds
      {
        var files := env.listing(rounds);
        var unprocessedFiles := Unprocessed(files, processedFiles);
        if unprocessedFiles == [] {
          return true, rounds;
        }
        ProcessFiles(unprocessedFiles, env);
        rounds := rounds + 1;
      }
      finished := false;
    }

    /** Lines 59-82: every unprocessed file in turn. */
    method ProcessFiles(unprocessedFiles: seq<string>, env: Env)
      modifies this
      ensures inputDirectory == old(inputDirectory)
      ensures State(processedFiles, uploads) ==
        DispatchAll(State(old(processedFiles), old(uploads)), inputDirectory, unprocessedFiles, env)
    {
      ghost var before := State(processedFiles, uploads);
      for k := 0 to |unprocessedFiles|
        invariant inputDirectory == old(inputDirectory)
        invariant State(processedFiles, uploads) == DispatchAll(before, inputDirectory, unprocessedFiles[..k], env)
      {
        assert unprocessedFiles[..k + 1][..k] == unprocessedFiles[..k];
        DispatchFile(unprocessedFiles[k], env);
      }
      assert unprocessedFiles[..|unprocessedFiles|] == unprocessedFiles;
    }

    /** Lines 60-82: guess the type, parse and upload, and mark the file as
        processed unless a `continue` is taken. */
    method DispatchFile(fileName: string, env: Env)
      modifies this
      ensures inputDirectory == old(inputDirectory)
      ensures State(processedFiles, uploads) ==
        Dispatch(State(old(processedFiles), old(uploads)), inputDirectory, fileName, env)
    {
      var filePath := PathJoin(inputDirectory, fileName);
      var fileType := env.guessType(filePath);
      ghost var before := State(processedFiles, uploads);
      if fileType.None? {
        assert Dispatch(before, inputDirectory, fileName, env) == before;
        return;
      }
      var t := fileType.value;
      if IsDocumentType(t) {
        var dictObject := env.parseImgPdf(filePath);
        uploads := uploads + [dictObject];
      } else if IsMediaType(t) {
        var processedFilePath := env.parseAudioVideo(filePath);
        var dictObjects := env.splitAudioVideo(processedFilePath);
        UploadEach(dictObjects);
      } else {
        assert Dispatch(before, inputDirectory, fileName, env) == before;
        return;
      }
      processedFiles := processedFiles + {fileName};
    }

    /** Lines 74-75: `upload_json` for each dict, in order. */
    method UploadEach(dictObjects: seq<Json>)
      modifies this
      ensures inputDirectory == old(inputDirectory) && processedFiles == old(processedFiles)
      ensures uploads == old(uploads) + dictObjects
    {
      for k := 0 to |dictObjects|
        invariant inputDirectory == old(inputDirectory) && processedFiles == old(processedFiles)
        invariant uploads == old(uploads) + dictObjects[..k]
      {
        assert dictObjects[..k + 1] == dictObjects[..k] + [dictObjects[k]];
        uploads := uploads + [dictObjects[k]];
      }
      assert dictObjects[..|dictObjects|] == dictObjects;
    }
  }

  // ---------------------------------------------------------------------
  // What the loop promises

  /** A pdf or image file is uploaded once, as what its parser returns; an
      audio or video file once per dict its split returns, in order; any
      other file uploads nothing and changes nothing. */
  lemma DispatchUploads(s: State, directory: string, fileName: string, env: Env)
    ensures var path := PathJoin(directory, fileName);
      var after := Dispatch(s, directory, fileName, env);
      match KindOf(env.guessType(path))
      case Document => after.uploads == s.uploads + [env.parseImgPdf(path)] && |after.uploads| == |s.uploads| + 1
      case Media => after.uploads == s.uploads + env.splitAudioVideo(env.parseAudioVideo(path))
      case _ => after == s
  {
  }

  /** Dispatch only adds: what was processed stays processed and the uploads
      already made stay in place; the one file added is the one dispatched,
      and only when its type was pdf, image, audio or video. */
  lemma DispatchAdds(s: State, directory: string, fileName: string, env: Env)
    ensures var after := Dispatch(s, directory, fileName, env);
      s.processed <= after.processed && s.uploads <= after.uploads &&
      after.processed - s.processed <= {fileName} &&
      (fileName in after.processed - s.processed <==>
        fileName !in s.processed && KindOf(env.guessType(PathJoin(directory, fileName))) in {Document, Media})
  {
  }

  /** Files added to `processed_files` by a run were dispatched as
      pdf/image or audio/video, and nothing is ever removed. */
  ghost predicate Grows(s: State, t: State, directory: string, env: Env) {
    s.processed <= t.processed && s.uploads <= t.uploads &&
    forall f | f in t.processed && f !in s.processed ::
      KindOf(env.guessType(PathJoin(directory, f))) in {Document, Media}
  }

  lemma GrowsTrans(s: State, t: State, u: State, directory: string, env: Env)
    requires Grows(s, t, directory, env) && Grows(t, u, directory, env)
    ensures Grows(s, u, directory, env)
  {
  }

  lemma {:induction false} DispatchAllGrows(s: State, directory: string, files: seq<string>, env: Env)
    ensures Grows(s, DispatchAll(s, directory, files, env), directory, env)
    decreases |files|
  {
    if files != [] {
      var front := DispatchAll(s, directory, files[..|files| - 1], env);
      DispatchAllGrows(s, directory, files[..|files| - 1], env);
      DispatchAdds(front, directory, files[|files| - 1], env);
      GrowsTrans(s, front, DispatchAll(s, directory, files, env), directory, env);
    }
  }

  lemma {:induction false} RunGrows(s: State, directory: string, env: Env, round: nat, fuel: nat)
    ensures Grows(s, Run(s, directory, env, round, fuel).state, directory, env)
    decreases fuel - round
  {
    if round < fuel && Unprocessed(env.listing(round), s.processed) != [] {
      var next := Round(s, directory, env.listing(round), env);
      DispatchAllGrows(s, directory, Unprocessed(env.listing(round), s.processed), env);
      RunGrows(next, directory, env, round + 1, fuel);
      GrowsTrans(s, next, Run(s, directory, env, round, fuel).state, directory, env);
    }
  }

  /** The loop leaves through the `break` exactly when it has rounds left,
      and then every file of the last listing is processed. */
  lemma {:induction false} RunExit(s: State, directory: string, env: Env, round: nat, fuel: nat)
    ensures var o := Run(s, directory, env, round, fuel);
      (o.finished <==> o.rounds < fuel) &&
      (o.finished ==> forall i | 0 <= i < |env.listing(o.rounds)| :: env.listing(o.rounds)[i] in o.state.processed)
    decreases fuel - round
  {
    if round < fuel && Unprocessed(env.listing(round), s.processed) == [] {
      UnprocessedMembers(env.listing(round), s.processed);
    } else if round < fuel {
      RunExit(Round(s, directory, env.listing(round), env), directory, env, round + 1, fuel);
    }
  }

  /** A file whose type is undetermined or unrecognised is never marked
      processed, so while it stays in the listing the loop never leaves
      through the `break`. */
  lemma {:induction false} StuckOnUnknownFile(s: State, directory: string, env: Env, round: nat, fuel: nat, f: string)
    requires KindOf(env.guessType(PathJoin(directory, f))) in {Undetermined, Unrecognised}
    requires f !in s.processed
    requires forall r | round <= r < fuel :: f in env.listing(r)
    ensures f !in Run(s, directory, env, round, fuel).state.processed
    ensures !Run(s, directory, env, round, fuel).finished
    decreases fuel - round
  {
    RunGrows(s, directory, env, round, fuel);
    if round < fuel {
      var files := env.listing(round);
      var i :| 0 <= i < |files| && files[i] == f;
      UnprocessedMembers(files, s.processed);
      assert files[i] in Unprocessed(files, s.processed);
      var next := Round(s, directory, files, env);
      DispatchAllGrows(s, directory, Unprocessed(files, s.processed), env);
      StuckOnUnknownFile(next, directory, env, round + 1, fuel, f);
    }
  }

  lemma {:induction false} UnprocessedAppend(x: seq<string>, y: seq<string>, processed: set<string>)
    ensures Unprocessed(x + y, processed) == Unprocessed(x, processed) + Unprocessed(y, processed)
    decreases |y|
  {
    if y == [] {
      assert x + y == x;
    } else {
      var front := y[..|y| - 1];
      UnprocessedAppend(x, front, processed);
      assert (x + y)[..|x + y| - 1] == x + front;
    }
  }

  /** A processed file is never dispatched again: wherever it is listed, the
      round goes as if it were not. */
  lemma ProcessedIgnored(s: State, directory: string, a: seq<string>, b: seq<string>, f: string, env: Env)
    requires f in s.processed
    ensures Round(s, directory, a + [f] + b, env) == Round(s, directory, a + b, env)
  {
    UnprocessedAppend(a + [f], b, s.processed);
    UnprocessedAppend(a, [f], s.processed);
    UnprocessedAppend(a, b, s.processed);
    assert [f][..0] == [];
    assert Unprocessed([f], s.processed) == [];
    assert Unprocessed(a + [f] + b, s.processed) == Unprocessed(a + b, s.processed);
  }
}
