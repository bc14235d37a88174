/** `split_audio` in Parser/dev/cloud/audio.py: the audio, given by its length
    in milliseconds, is cut at every `i` of `range(0, length // 1000, d)` into
    the slice `[i * 1000, min((i + d) * 1000, length))`, exported as
    `<name>_segment_<k>.mp3` with k counted from 1. */
module Segmenter {
  import opened Results
  import opened Text

  /** The default `segment_duration` of line 80, in seconds. */
  const DefaultSegmentDuration := 59

  /** One exported slice: its number (from 1) and the milliseconds it covers. */
  datatype Segment = Segment(number: nat, startMs: int, endMs: int)

  function Min(a: int, b: int): int {
    if a <= b then a else b
  }

  /** `f"{Path(src_path).name}_segment_{k}.mp3"`. */
  function SegmentName(srcPath: string, k: nat): string {
    PathName(srcPath) + "_segment_" + IntToString(k) + ".mp3"
  }

  /** Where segment `s` is exported (line 96). */
  function ExportPath(srcPath: string, outputDir: string, s: Segment): string {
    PathJoin(outputDir, SegmentName(srcPath, s.number))
  }

  /** The slice exported for `i = k * d`. */
  function SegmentAt(lengthMs: nat, d: nat, k: nat): Segment
    requires d > 0
  {
    var i := k * d;
    Segment(k + 1, i * 1000, Min((i + d) * 1000, lengthMs))
  }

  /** How many `i` lie in `range(0, total, d)`. */
  function Count(total: nat, d: nat): nat
    requires d > 0
  {
    (total + d - 1) / d
  }

  /** The first `n` slices. */
  function FirstSegments(lengthMs: nat, d: nat, n: nat): (segs: seq<Segment>)
    requires d > 0
    ensures |segs| == n
  {
    seq(n, k requires 0 <= k => SegmentAt(lengthMs, d, k))
  }

  /** The slices, one per `i` in the range. */
  function Segments(lengthMs: nat, d: nat): (segs: seq<Segment>)
    requires d > 0
    ensures |segs| == Count(lengthMs / 1000, d)
  {
    FirstSegments(lengthMs, d, Count(lengthMs / 1000, d))
  }

  lemma FirstSegmentsStep(lengthMs: nat, d: nat, n: nat)
    requires d > 0
    ensures FirstSegments(lengthMs, d, n + 1) ==
      FirstSegments(lengthMs, d, n) + [SegmentAt(lengthMs, d, n)]
  {
    var longer := FirstSegments(lengthMs, d, n + 1);
    var shorter := FirstSegments(lengthMs, d, n);
    forall k | 0 <= k < n ensures longer[k] == shorter[k] {
      assert longer[k] == SegmentAt(lengthMs, d, k);
    }
    assert longer == shorter + [SegmentAt(lengthMs, d, n)];
  }

  /** Lines 83-96: the slices in export order, each exported to
      `ExportPath`. A step of 0 makes `range` raise; a negative step gives an
      empty range, so nothing is exported. */
  method SplitAudio(lengthMs: nat, segmentDuration: int)
    returns (r: Result<seq<Segment>>)
    ensures segmentDuration == 0 ==> r == Err(ValueError)
    ensures segmentDuration < 0 ==> r == Ok([])
    ensures segmentDuration > 0 ==> r == Ok(Segments(lengthMs, segmentDuration))
  {
    var total := lengthMs / 1000;
    if segmentDuration == 0 {
      return Err(ValueError);
    }
    if segmentDuration < 0 {
      return Ok([]);
    }
    var d: nat := segmentDuration;
    var segs: seq<Segment> := [];
    var i := 0;
    while i < total
      invariant i == |segs| * d
      invariant segs == [] || (|segs| - 1) * d < total
      invariant segs == FirstSegments(lengthMs, d, |segs|)
    {
      var startTime := i * 1000;
      var endTime := Min((i + d) * 1000, lengthMs);
      ghost var k := |segs|;
      DivideExactly(k, d, 0);
      var exported := Segment(i / d + 1, startTime, endTime);
      assert i / d == k;
      assert exported == SegmentAt(lengthMs, d, k);
      FirstSegmentsStep(lengthMs, d, k);
      segs := segs + [exported];
      MulStep(k, d);
      i := i + d;
    }
    CountIsCeiling(total, d, |segs|);
    return Ok(segs);
  }

  lemma MulStep(n: int, d: int)
    ensures (n + 1) * d == n * d + d
  {
  }

  lemma MulMonotone(a: nat, b: nat, d: nat)
    requires a <= b
    ensures a * d <= b * d
  {
    assert b * d == a * d + (b - a) * d;
  }

  /** `n` steps of `d` reach `total` and `n - 1` do not exactly when `n` is
      the number of elements of `range(0, total, d)`. */
  lemma CountIsCeiling(total: nat, d: nat, n: nat)
    requires d > 0
    requires n * d >= total
    requires n == 0 || (n - 1) * d < total
    ensures n == Count(total, d)
  {
    if n == 0 {
      DivideExactly(0, d, d - 1);
    } else {
      MulStep(n - 1, d);
      DivideExactly(n, d, total + d - 1 - n * d);
    }
  }

  lemma DivideExactly(n: nat, d: nat, rest: nat)
    requires d > 0 && rest < d
    ensures (n * d + rest) / d == n
  {
    var x := n * d + rest;
    var q, m := x / d, x % d;
    assert q * d + m == n * d + rest;
    if q > n {
      MulMonotone(n + 1, q, d);
      MulStep(n, d);
      assert false;
    }
    if q < n {
      MulMonotone(q + 1, n, d);
      MulStep(q, d);
      assert false;
    }
  }

  /** `Count` is the number of elements of the range: its last element is
      below `total` and one more step reaches it. */
  lemma CountMeetsTotal(total: nat, d: nat)
    requires d > 0
    ensures Count(total, d) * d >= total
    ensures Count(total, d) == 0 || (Count(total, d) - 1) * d < total
  {
    var n := Count(total, d);
    var m := (total + d - 1) % d;
    assert n * d + m == total + d - 1;
    if n > 0 {
      MulStep(n - 1, d);
    }
  }

  /** Audio shorter than one second gives no segment. */
  lemma ShortAudioNoSegments(lengthMs: nat, d: nat)
    requires d > 0 && lengthMs < 1000
    ensures Segments(lengthMs, d) == []
  {
    assert (d - 1) / d == 0;
  }

  /** Segment k starts where segment k - 1 ends; the first starts at 0. */
  lemma SegmentsAbut(lengthMs: nat, d: nat, k: nat)
    requires d > 0 && k + 1 < |Segments(lengthMs, d)|
    ensures var segs := Segments(lengthMs, d);
      segs[0].startMs == 0 && segs[k].endMs == segs[k + 1].startMs
  {
    var total := lengthMs / 1000;
    CountMeetsTotal(total, d);
    MulMonotone(k + 1, Count(total, d) - 1, d);
    MulStep(k, d);
    var next := (k + 1) * d;
    assert next < total;
    var segs := Segments(lengthMs, d);
    assert segs[k] == SegmentAt(lengthMs, d, k);
    assert segs[k + 1] == SegmentAt(lengthMs, d, k + 1);
    assert segs[0] == SegmentAt(lengthMs, d, 0);
  }

  /** Every segment is non-empty, at most `d` seconds long and inside the audio. */
  lemma SegmentBounds(lengthMs: nat, d: nat, k: nat)
    requires d > 0 && k < |Segments(lengthMs, d)|
    ensures var s := Segments(lengthMs, d)[k];
      s.number == k + 1 && 0 <= s.startMs < s.endMs <= lengthMs && s.endMs - s.startMs <= d * 1000
  {
    var total := lengthMs / 1000;
    CountMeetsTotal(total, d);
    MulMonotone(k, Count(total, d) - 1, d);
    var i := k * d;
    assert i < total;
    assert Segments(lengthMs, d)[k] == SegmentAt(lengthMs, d, k);
  }

  /** The last segment stops at the end of the audio, except when `d` divides
      the whole seconds: then it stops at the last whole second and the final
      `lengthMs % 1000` milliseconds are in no segment. */
  lemma LastSegmentEnd(lengthMs: nat, d: nat)
    requires d > 0 && lengthMs >= 1000
    ensures var segs := Segments(lengthMs, d);
      |segs| > 0 &&
      segs[|segs| - 1].endMs == if (lengthMs / 1000) % d == 0 then lengthMs / 1000 * 1000 else lengthMs
  {
    var total := lengthMs / 1000;
    CountMeetsTotal(total, d);
    var n := Count(total, d);
    assert n > 0;
    var step := (n - 1) * d + d;
    assert step == n * d;
    if total % d == 0 {
      var q := total / d;
      assert q * d == total;
      CountIsCeiling(total, d, q);
      assert step * 1000 == total * 1000 <= lengthMs;
    } else {
      assert step != total by {
        if step == total {
          DivideExactly(n, d, 0);
        }
      }
      assert step * 1000 >= (total + 1) * 1000 > lengthMs;
    }
  }

  /** Different segment numbers give different file names, so no export
      overwrites another. */
  lemma SegmentNamesDistinct(srcPath: string, j: nat, k: nat)
    requires j != k
    ensures SegmentName(srcPath, j) != SegmentName(srcPath, k)
  {
    var prefix := PathName(srcPath) + "_segment_";
    var a, b := IntToString(j), IntToString(k);
    if SegmentName(srcPath, j) == SegmentName(srcPath, k) {
      var x, y := prefix + a + ".mp3", prefix + b + ".mp3";
      assert x == y;
      assert |a| == |b|;
      assert a == x[|prefix|..|prefix| + |a|];
      assert b == y[|prefix|..|prefix| + |b|];
      NatToStringInjective(j, k);
    }
  }
}
