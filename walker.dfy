/** `transcript_all` in Parser/dev/cloud/audio.py (lines 14-21): every file
    of the walk whose name ends with the format is transcribed, and a running
    offset grows by each file's whole seconds. The call passes that offset as
    the second positional argument, which is `dst_dir`, so `start_offset`
    keeps its default 0.

    Inside `transcribe_audio` (lines 26-29) that integer reaches
    `os.path.exists`, which for an integer asks whether it is an open file
    descriptor. When it is not, `os.makedirs` is given the integer and raises
    `TypeError`, which ends the walk. For an offset of 3 or more only an
    otherwise opened descriptor lets the call go on, so the real walk
    normally stops at the second matching file.

    The walk is given as the `(root, files)` pairs `os.walk` yields, in its
    order, the length of each audio file in milliseconds as a function of
    its path, and the open file descriptors as a predicate. */
module DirectoryWalk {
  import opened Results
  import opened Text

  /** The default `format` of line 14. */
  const DefaultFormat := "mp3"

  /** One call `transcribe_audio(src_path, dst_dir, start_offset)`. */
  datatype Call = Call(srcPath: string, dstDir: int, startOffset: int)

  /** The paths of the files that are transcribed, in visiting order. */
  function Visited(walk: seq<(string, seq<string>)>, format: string): seq<string>
    decreases |walk|
  {
    if walk == [] then []
    else Visited(walk[..|walk| - 1], format) + Matching(walk[|walk| - 1].0, walk[|walk| - 1].1, format)
  }

  function Matching(root: string, files: seq<string>, format: string): seq<string>
    decreases |files|
  {
    if files == [] then []
    else
      var file := files[|files| - 1];
      Matching(root, files[..|files| - 1], format) + (if EndsWith(file, format) then [PathJoin(root, file)] else [])
  }

  /** The whole seconds of the given files, each rounded down on its own. */
  function Seconds(paths: seq<string>, lengthMs: string -> nat): nat {
    if paths == [] then 0 else Seconds(paths[..|paths| - 1], lengthMs) + lengthMs(paths[|paths| - 1]) / 1000
  }

  /** The calls the loops attempt for the visited paths. */
  function Calls(paths: seq<string>, lengthMs: string -> nat): (calls: seq<Call>)
    ensures |calls| == |paths|
  {
    if paths == [] then []
    else
      var earlier := paths[..|paths| - 1];
      Calls(earlier, lengthMs) + [Call(paths[|paths| - 1], Seconds(earlier, lengthMs), 0)]
  }

  /** The index of the first call whose `dst_dir` is not an open descriptor,
      or the number of calls when there is none. */
  function FirstClosed(calls: seq<Call>, fdOpen: int -> bool): (k: nat)
    ensures k <= |calls|
    ensures forall i | 0 <= i < k :: fdOpen(calls[i].dstDir)
    ensures k < |calls| ==> !fdOpen(calls[k].dstDir)
  {
    if calls == [] || !fdOpen(calls[0].dstDir) then 0
    else 1 + FirstClosed(calls[1..], fdOpen)
  }

  /** The loops of lines 15-21. `calls` are the calls that ran to their end;
      `error` is the `TypeError` of the first call whose `dst_dir` is not an
      open descriptor. */
  method TranscriptAll(walk: seq<(string, seq<string>)>, format: string, lengthMs: string -> nat,
                       fdOpen: int -> bool)
    returns (calls: seq<Call>, error: Option<Error>)
    ensures var attempted := Calls(Visited(walk, format), lengthMs);
      var k := FirstClosed(attempted, fdOpen);
      calls == attempted[..k] && error == if k < |attempted| then Some(TypeError) else None
  {
    var nextFileStartOffset := 0;
    calls := [];
    ghost var visited: seq<string> := [];
    for r := 0 to |walk|
      invariant visited == Visited(walk[..r], format)
      invariant calls == Calls(visited, lengthMs)
      invariant nextFileStartOffset == Seconds(visited, lengthMs)
      invariant forall i | 0 <= i < |calls| :: fdOpen(calls[i].dstDir)
    {
      VisitedStep(walk, r, format);
      var failed: bool;
      ghost var f: nat;
      calls, nextFileStartOffset, visited, failed, f :=
        TranscriptDirectory(walk[r].0, walk[r].1, format, lengthMs, fdOpen, calls, nextFileStartOffset, visited);
      if failed {
        StopPrefix(walk, format, lengthMs, r, f);
        StopAt(Calls(Visited(walk, format), lengthMs), calls, nextFileStartOffset, Call(PathJoin(walk[r].0, walk[r].1[f]), nextFileStartOffset, 0), fdOpen);
        return calls, Some(TypeError);
      }
    }
    assert walk[..|walk|] == walk;
    FirstClosedAt(calls, |calls|, fdOpen);
    error := None;
  }

  /** Lines 17-21 for the files of one directory. When `failed`, file `f` is
      the matching file whose call raised, and the visited paths stop before
      it. */
  method TranscriptDirectory(root: string, files: seq<string>, format: string, lengthMs: string -> nat,
                             fdOpen: int -> bool, calls0: seq<Call>, offset0: nat, ghost visited0: seq<string>)
    returns (calls: seq<Call>, nextFileStartOffset: nat, ghost visited: seq<string>, failed: bool, ghost f: nat)
    requires calls0 == Calls(visited0, lengthMs) && offset0 == Seconds(visited0, lengthMs)
    requires forall i | 0 <= i < |calls0| :: fdOpen(calls0[i].dstDir)
    ensures calls == Calls(visited, lengthMs) && nextFileStartOffset == Seconds(visited, lengthMs)
    ensures forall i | 0 <= i < |calls| :: fdOpen(calls[i].dstDir)
    ensures !failed ==> visited == visited0 + Matching(root, files, format)
    ensures failed ==> (f < |files| && EndsWith(files[f], format) && !fdOpen(nextFileStartOffset) &&
                        visited == visited0 + Matching(root, files[..f], format))
  {
    calls, nextFileStartOffset, visited, failed, f := calls0, offset0, visited0, false, 0;
    for i := 0 to |files|
      invariant visited == visited0 + Matching(root, files[..i], format)
      invariant calls == Calls(visited, lengthMs)
      invariant nextFileStartOffset == Seconds(visited, lengthMs)
      invariant forall j | 0 <= j < |calls| :: fdOpen(calls[j].dstDir)
    {
      var file := files[i];
      if EndsWith(file, format) {
        if !fdOpen(nextFileStartOffset) {
          return calls, nextFileStartOffset, visited, true, i;
        }
        var path := PathJoin(root, file);
        FileStep(root, files, i, format, lengthMs, fdOpen, visited0, visited, calls);
        calls := calls + [Call(path, nextFileStartOffset, 0)];
        nextFileStartOffset := nextFileStartOffset + lengthMs(path) / 1000;
        visited := visited + [path];
      } else {
        SkipStep(root, files, i, format, visited0);
      }
    }
    assert files[..|files|] == files;
  }

  /** One matching file whose `dst_dir` is open extends the visited paths,
      the calls and the offset, and every call so far had an open `dst_dir`. */
  lemma FileStep(root: string, files: seq<string>, i: nat, format: string, lengthMs: string -> nat,
                 fdOpen: int -> bool, visited0: seq<string>, visited: seq<string>, calls: seq<Call>)
    requires i < |files| && EndsWith(files[i], format)
    requires visited == visited0 + Matching(root, files[..i], format) && calls == Calls(visited, lengthMs)
    requires forall j | 0 <= j < |calls| :: fdOpen(calls[j].dstDir)
    requires fdOpen(Seconds(visited, lengthMs))
    ensures var path := PathJoin(root, files[i]);
      var calls1 := calls + [Call(path, Seconds(visited, lengthMs), 0)];
      visited + [path] == visited0 + Matching(root, files[..i + 1], format) &&
      calls1 == Calls(visited + [path], lengthMs) &&
      Seconds(visited + [path], lengthMs) == Seconds(visited, lengthMs) + lengthMs(path) / 1000 &&
      forall j | 0 <= j < |calls1| :: fdOpen(calls1[j].dstDir)
  {
    var path := PathJoin(root, files[i]);
    DirectoryStep(root, files, i, format, visited0);
    PathsAppend(visited, path, lengthMs);
  }

  /** A file that does not match leaves the visited paths as they are. */
  lemma SkipStep(root: string, files: seq<string>, i: nat, format: string, visited0: seq<string>)
    requires i < |files| && !EndsWith(files[i], format)
    ensures visited0 + Matching(root, files[..i + 1], format) == visited0 + Matching(root, files[..i], format)
  {
    MatchingStep(root, files, i, format);
  }

  /** `FirstClosed` is the only index with its two properties. */
  lemma FirstClosedAt(calls: seq<Call>, k: nat, fdOpen: int -> bool)
    requires k <= |calls|
    requires forall i | 0 <= i < k :: fdOpen(calls[i].dstDir)
    requires k < |calls| ==> !fdOpen(calls[k].dstDir)
    ensures FirstClosed(calls, fdOpen) == k
  {
  }

  /** The calls that ran are followed, in the attempted calls, by one whose
      `dst_dir` is closed: that is where the walk stops. */
  lemma StopAt(attempted: seq<Call>, calls: seq<Call>, offset: int, c: Call, fdOpen: int -> bool)
    requires calls + [c] <= attempted && c.dstDir == offset && !fdOpen(offset)
    requires forall i | 0 <= i < |calls| :: fdOpen(calls[i].dstDir)
    ensures FirstClosed(attempted, fdOpen) == |calls| && attempted[..|calls|] == calls
  {
    assert attempted[|calls|] == (calls + [c])[|calls|];
    assert forall i | 0 <= i < |calls| :: attempted[i] == calls[i];
    FirstClosedAt(attempted, |calls|, fdOpen);
  }

  /** With only the standard streams 0, 1 and 2 open, the first matching
      file is transcribed (its `dst_dir` is 0), and when it lasts 3 seconds
      or more the call for the second one raises `TypeError`: the walk
      transcribes one file. */
  lemma StandardStreamsOnly(walk: seq<(string, seq<string>)>, format: string, lengthMs: string -> nat,
                            fdOpen: int -> bool)
    requires forall d :: fdOpen(d) <==> 0 <= d <= 2
    requires |Visited(walk, format)| >= 2 && lengthMs(Visited(walk, format)[0]) >= 3000
    ensures FirstClosed(Calls(Visited(walk, format), lengthMs), fdOpen) == 1
  {
    var paths := Visited(walk, format);
    CallAt(paths, lengthMs, 0);
    CallAt(paths, lengthMs, 1);
    assert paths[..1][..0] == [];
    FirstClosedAt(Calls(paths, lengthMs), 1, fdOpen);
  }

  /** The attempted calls up to a matching file whose call raises are a
      prefix of all attempted calls. */
  lemma StopPrefix(walk: seq<(string, seq<string>)>, format: string, lengthMs: string -> nat, r: nat, f: nat)
    requires r < |walk| && f < |walk[r].1| && EndsWith(walk[r].1[f], format)
    ensures var visited := Visited(walk[..r], format) + Matching(walk[r].0, walk[r].1[..f], format);
      Calls(visited, lengthMs) + [Call(PathJoin(walk[r].0, walk[r].1[f]), Seconds(visited, lengthMs), 0)] <=
        Calls(Visited(walk, format), lengthMs)
  {
    var root, files := walk[r].0, walk[r].1;
    var earlier := Visited(walk[..r], format);
    var visited := earlier + Matching(root, files[..f], format);
    var p := PathJoin(root, files[f]);
    DirectoryStep(root, files, f, format, earlier);
    MatchingPrefix(root, files, format, f + 1);
    VisitedStep(walk, r, format);
    assert visited + [p] <= Visited(walk[..r + 1], format);
    VisitedPrefix(walk, format, r + 1);
    PrefixTrans(visited + [p], Visited(walk[..r + 1], format), Visited(walk, format));
    CallsPrefix(visited + [p], Visited(walk, format), lengthMs);
    PathsAppend(visited, p, lengthMs);
  }

  lemma PrefixTrans<T>(a: seq<T>, b: seq<T>, c: seq<T>)
    requires a <= b && b <= c
    ensures a <= c
  {
    assert c[..|b|][..|a|] == c[..|a|];
  }

  lemma {:induction false} MatchingPrefix(root: string, files: seq<string>, format: string, j: nat)
    requires j <= |files|
    ensures Matching(root, files[..j], format) <= Matching(root, files, format)
    decreases |files| - j
  {
    if j < |files| {
      MatchingPrefix(root, files, format, j + 1);
      MatchingStep(root, files, j, format);
      PrefixTrans(Matching(root, files[..j], format), Matching(root, files[..j + 1], format),
                  Matching(root, files, format));
    } else {
      assert files[..j] == files;
    }
  }

  lemma {:induction false} VisitedPrefix(walk: seq<(string, seq<string>)>, format: string, r: nat)
    requires r <= |walk|
    ensures Visited(walk[..r], format) <= Visited(walk, format)
    decreases |walk| - r
  {
    if r < |walk| {
      VisitedPrefix(walk, format, r + 1);
      VisitedStep(walk, r, format);
      PrefixTrans(Visited(walk[..r], format), Visited(walk[..r + 1], format), Visited(walk, format));
    } else {
      assert walk[..r] == walk;
    }
  }

  lemma {:induction false} CallsPrefix(p: seq<string>, q: seq<string>, lengthMs: string -> nat)
    requires p <= q
    ensures Calls(p, lengthMs) <= Calls(q, lengthMs)
    decreases |q|
  {
    if |p| < |q| {
      var front := q[..|q| - 1];
      assert p <= front;
      CallsPrefix(p, front, lengthMs);
      PrefixTrans(Calls(p, lengthMs), Calls(front, lengthMs), Calls(q, lengthMs));
    } else {
      assert p == q;
    }
  }

  lemma MatchingStep(root: string, files: seq<string>, f: nat, format: string)
    requires f < |files|
    ensures Matching(root, files[..f + 1], format) ==
      Matching(root, files[..f], format) + (if EndsWith(files[f], format) then [PathJoin(root, files[f])] else [])
  {
    assert files[..f + 1][..f] == files[..f];
  }

  lemma DirectoryStep(root: string, files: seq<string>, f: nat, format: string, visited0: seq<string>)
    requires f < |files|
    ensures visited0 + Matching(root, files[..f + 1], format) ==
      visited0 + Matching(root, files[..f], format) + (if EndsWith(files[f], format) then [PathJoin(root, files[f])] else [])
  {
    MatchingStep(root, files, f, format);
    AppendAssoc(visited0, Matching(root, files[..f], format),
                if EndsWith(files[f], format) then [PathJoin(root, files[f])] else []);
  }

  lemma VisitedStep(walk: seq<(string, seq<string>)>, r: nat, format: string)
    requires r < |walk|
    ensures Visited(walk[..r + 1], format) == Visited(walk[..r], format) + Matching(walk[r].0, walk[r].1, format)
  {
    assert walk[..r + 1][..r] == walk[..r];
  }

  lemma PathsAppend(paths: seq<string>, p: string, lengthMs: string -> nat)
    ensures Calls(paths + [p], lengthMs) == Calls(paths, lengthMs) + [Call(p, Seconds(paths, lengthMs), 0)]
    ensures Seconds(paths + [p], lengthMs) == Seconds(paths, lengthMs) + lengthMs(p) / 1000
  {
    assert (paths + [p])[..|paths|] == paths;
  }

  lemma {:induction false} CallAt(paths: seq<string>, lengthMs: string -> nat, k: nat)
    requires k < |paths|
    ensures Calls(paths, lengthMs)[k] == Call(paths[k], Seconds(paths[..k], lengthMs), 0)
    decreases |paths|
  {
    var n := |paths| - 1;
    if k < n {
      CallAt(paths[..n], lengthMs, k);
      assert paths[..n][..k] == paths[..k];
    } else {
      assert paths[..k] == paths[..n];
    }
  }

  lemma {:induction false} SecondsMonotone(paths: seq<string>, lengthMs: string -> nat, j: nat, k: nat)
    requires j <= k <= |paths|
    ensures Seconds(paths[..j], lengthMs) <= Seconds(paths[..k], lengthMs)
    decreases k - j
  {
    if j < k {
      SecondsMonotone(paths, lengthMs, j, k - 1);
      assert paths[..k][..k - 1] == paths[..k - 1];
    }
  }

  /** The k-th transcribed file gets, as `dst_dir`, the whole seconds of the
      files transcribed before it; `start_offset` is always 0; and the value
      passed never decreases from one file to the next. */
  lemma OffsetsAccumulate(walk: seq<(string, seq<string>)>, format: string, lengthMs: string -> nat, j: nat, k: nat)
    requires j <= k < |Visited(walk, format)|
    ensures var paths := Visited(walk, format);
      var calls := Calls(paths, lengthMs);
      calls[k].srcPath == paths[k] &&
      calls[k].dstDir == Seconds(paths[..k], lengthMs) &&
      calls[k].startOffset == 0 &&
      calls[j].dstDir <= calls[k].dstDir
  {
    var paths := Visited(walk, format);
    CallAt(paths, lengthMs, j);
    CallAt(paths, lengthMs, k);
    SecondsMonotone(paths, lengthMs, j, k);
  }

  lemma EndsWithTrans(s: string, t: string, u: string)
    requires EndsWith(s, t) && EndsWith(t, u)
    ensures EndsWith(s, u)
  {
    assert s[|s| - |u|..] == t[|t| - |u|..];
  }

  lemma {:induction false} MatchingEndWithFormat(root: string, files: seq<string>, format: string)
    ensures forall p | p in Matching(root, files, format) :: EndsWith(p, format)
    decreases |files|
  {
    if files != [] {
      var n := |files| - 1;
      MatchingEndWithFormat(root, files[..n], format);
      var earlier := Matching(root, files[..n], format);
      if EndsWith(files[n], format) {
        var p := PathJoin(root, files[n]);
        PathJoinEndsWith(root, files[n]);
        EndsWithTrans(p, files[n], format);
        assert Matching(root, files, format) == earlier + [p];
      } else {
        assert Matching(root, files, format) == earlier;
      }
    }
  }

  lemma MatchingLast(root: string, files: seq<string>, format: string)
    requires files != []
    ensures var n := |files| - 1;
      Matching(root, files, format) ==
        Matching(root, files[..n], format) + (if EndsWith(files[n], format) then [PathJoin(root, files[n])] else [])
  {
  }

  lemma {:induction false} MatchingComplete(root: string, files: seq<string>, format: string)
    ensures forall f | 0 <= f < |files| && EndsWith(files[f], format) :: PathJoin(root, files[f]) in Matching(root, files, format)
    decreases |files|
  {
    if files != [] {
      var n := |files| - 1;
      var front := files[..n];
      MatchingComplete(root, front, format);
      MatchingLast(root, files, format);
      var earlier := Matching(root, front, format);
      forall f | 0 <= f < |files| && EndsWith(files[f], format)
        ensures PathJoin(root, files[f]) in Matching(root, files, format)
      {
        if f < n {
          assert front[f] == files[f];
          assert PathJoin(root, files[f]) in earlier;
        }
      }
    }
  }

  /** Only files whose name ends with the format are transcribed, and every
      such file of every walked directory is. */
  lemma VisitedExactly(walk: seq<(string, seq<string>)>, format: string)
    ensures forall p | p in Visited(walk, format) :: EndsWith(p, format)
    ensures forall r, f | 0 <= r < |walk| && 0 <= f < |walk[r].1| && EndsWith(walk[r].1[f], format) ::
      PathJoin(walk[r].0, walk[r].1[f]) in Visited(walk, format)
  {
    VisitedEndWithFormat(walk, format);
    VisitedComplete(walk, format);
  }

  lemma {:induction false} VisitedEndWithFormat(walk: seq<(string, seq<string>)>, format: string)
    ensures forall p | p in Visited(walk, format) :: EndsWith(p, format)
    decreases |walk|
  {
    if walk != [] {
      var n := |walk| - 1;
      VisitedEndWithFormat(walk[..n], format);
      MatchingEndWithFormat(walk[n].0, walk[n].1, format);
      assert Visited(walk, format) == Visited(walk[..n], format) + Matching(walk[n].0, walk[n].1, format);
    }
  }

  lemma {:induction false} VisitedComplete(walk: seq<(string, seq<string>)>, format: string)
    ensures forall r, f | 0 <= r < |walk| && 0 <= f < |walk[r].1| && EndsWith(walk[r].1[f], format) ::
      PathJoin(walk[r].0, walk[r].1[f]) in Visited(walk, format)
    decreases |walk|
  {
    if walk != [] {
      var n := |walk| - 1;
      var front := walk[..n];
      VisitedComplete(front, format);
      MatchingComplete(walk[n].0, walk[n].1, format);
      var earlier := Visited(front, format);
      assert Visited(walk, format) == earlier + Matching(walk[n].0, walk[n].1, format);
      forall r, f | 0 <= r < |walk| && 0 <= f < |walk[r].1| && EndsWith(walk[r].1[f], format)
        ensures PathJoin(walk[r].0, walk[r].1[f]) in Visited(walk, format)
      {
        if r < n {
          assert front[r] == walk[r];
          assert PathJoin(walk[r].0, walk[r].1[f]) in earlier;
        }
      }
    }
  }
}
