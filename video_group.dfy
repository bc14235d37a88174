/** The object-tracking transcript of `VideoParser` in Parser/dev/cloud/video.py:
    the writer of lines 93-95, one `start end entity` line per annotation, and
    `_group_by_name` (lines 113-127), which reads those lines back, groups the
    intervals by name in order of first appearance and rewrites the file as
    one `name s-e s-e ...` line per name.

    Times are `real`s. How Python prints a float (`f"{x}"`) and parses one
    (`float(s)`) are parameters, as is the translation call of line 95. A file
    is read as the sequence of its lines, each with its line break. An
    insertion-ordered `defaultdict` is modelled as the sequence of its keys in
    insertion order together with a map. */
module VideoObjects {
  import opened Results
  import opened Text

  type Interval = (real, real)

  /** One annotation of lines 86-91: its segment and its entity description. */
  datatype Annotation = Annotation(start: real, end: real, entity: string)

  /** One parsed line: the name and its `(float(start), float(end))`. */
  datatype Entry = Entry(name: string, interval: Interval)

  // ---------------------------------------------------------------------
  // Writing (lines 93-95)

  /** `f"{start_time} {end_time} {translate(entity)}\n"`. */
  function WriterLine(a: Annotation, format: real -> string, translate: string -> string): string {
    format(a.start) + " " + format(a.end) + " " + translate(a.entity) + "\n"
  }

  function WriterLines(annotations: seq<Annotation>, format: real -> string, translate: string -> string): (lines: seq<string>)
    ensures |lines| == |annotations|
  {
    if annotations == [] then []
    else WriterLines(annotations[..|annotations| - 1], format, translate) +
         [WriterLine(annotations[|annotations| - 1], format, translate)]
  }

  /** Lines 93-95: one line per annotation, in order. */
  method WriteAnnotations(annotations: seq<Annotation>, format: real -> string, translate: string -> string)
    returns (lines: seq<string>)
    ensures lines == WriterLines(annotations, format, translate)
  {
    lines := [];
    for i := 0 to |annotations|
      invariant lines == WriterLines(annotations[..i], format, translate)
    {
      assert annotations[..i + 1][..i] == annotations[..i];
      lines := lines + [WriterLine(annotations[i], format, translate)];
    }
    assert annotations[..|annotations|] == annotations;
  }

  // ---------------------------------------------------------------------
  // Reading (lines 116-119)

  /** `start_time, end_time, name = line.strip().split(' ', 2)` and the two
      `float(...)` calls: fewer than three fields, or a time that does not
      parse, raise `ValueError`. */
  function ParseLine(line: string, parse: string -> Option<real>): (r: Result<Entry>)
    ensures r.Err? ==> r == Err(ValueError)
  {
    var parts := SplitMax(Strip(line), ' ', 2);
    if |parts| < 3 then Err(ValueError)
    else match (parse(parts[0]), parse(parts[1]))
      case (Some(s), Some(e)) => Ok(Entry(parts[2], (s, e)))
      case _ => Err(ValueError)
  }

  /** Every line parsed, or the `ValueError` of the first one that does not. */
  function ParseAll(lines: seq<string>, parse: string -> Option<real>): (r: Result<seq<Entry>>)
    ensures r.Err? ==> r == Err(ValueError)
    ensures r.Ok? ==> |r.value| == |lines|
  {
    if lines == [] then Ok([])
    else match ParseAll(lines[..|lines| - 1], parse)
      case Err(e) => Err(e)
      case Ok(entries) =>
        match ParseLine(lines[|lines| - 1], parse)
        case Err(e) => Err(e)
        case Ok(x) => Ok(entries + [x])
  }

  // ---------------------------------------------------------------------
  // Grouping (lines 114-124)

  /** The keys of `grouped_data` in insertion order: each name once, when it
      first appears. */
  function Names(entries: seq<Entry>): seq<string> {
    if entries == [] then []
    else
      var names := Names(entries[..|entries| - 1]);
      var name := entries[|entries| - 1].name;
      if name in names then names else names + [name]
  }

  /** `grouped_data[name]`: the intervals of the entries named `name`, in input order. */
  function Intervals(entries: seq<Entry>, name: string): (times: seq<Interval>)
    ensures |times| <= |entries|
  {
    if entries == [] then []
    else
      var last := entries[|entries| - 1];
      Intervals(entries[..|entries| - 1], name) + (if last.name == name then [last.interval] else [])
  }

  /** The position of the first entry named `name` (`|entries|` when there is none). */
  function Position(entries: seq<Entry>, name: string): (p: nat)
    ensures p <= |entries|
    ensures p < |entries| ==> entries[p].name == name
    ensures forall j | 0 <= j < p :: entries[j].name != name
  {
    if entries == [] then 0
    else
      var n := |entries| - 1;
      var p := Position(entries[..n], name);
      if p < n then p
      else if entries[n].name == name then n
      else |entries|
  }

  /** `' '.join(f"{start}-{end}" for start, end in times)`, before joining. */
  function IntervalTexts(times: seq<Interval>, format: real -> string): (texts: seq<string>)
    ensures |texts| == |times|
  {
    if times == [] then []
    else IntervalTexts(times[..|times| - 1], format) +
         [format(times[|times| - 1].0) + "-" + format(times[|times| - 1].1)]
  }

  /** `f"{name} {times_str}"`. */
  function OutputLine(name: string, times: seq<Interval>, format: real -> string): string {
    name + " " + Join(" ", IntervalTexts(times, format))
  }

  /** The output lines for `names`, in that order. */
  function OutputLines(names: seq<string>, entries: seq<Entry>, format: real -> string): (out: seq<string>)
    ensures |out| == |names|
  {
    if names == [] then []
    else OutputLines(names[..|names| - 1], entries, format) +
         [OutputLine(names[|names| - 1], Intervals(entries, names[|names| - 1]), format)]
  }

  /** What line 127 writes: the output lines joined by line breaks, plus one. */
  function Content(entries: seq<Entry>, format: real -> string): (text: string)
    ensures EndsWith(text, "\n")
  {
    var text := Join("\n", OutputLines(Names(entries), entries, format)) + "\n";
    assert text[|text| - 1..] == "\n";
    text
  }

  /** The new content of the file, or the `ValueError` that leaves it as it was. */
  function Rewrite(lines: seq<string>, parse: string -> Option<real>, format: real -> string): Result<string> {
    match ParseAll(lines, parse)
    case Err(e) => Err(e)
    case Ok(entries) => Ok(Content(entries, format))
  }

  /** Lines 113-127. `names` and `grouped` together are `grouped_data`. */
  method GroupByName(lines: seq<string>, parse: string -> Option<real>, format: real -> string)
    returns (r: Result<string>)
    ensures r == Rewrite(lines, parse, format)
  {
    var names: seq<string> := [];
    var grouped: map<string, seq<Interval>> := map[];
    ghost var entries: seq<Entry> := [];
    for i := 0 to |lines|
      invariant ParseAll(lines[..i], parse) == Ok(entries)
      invariant names == Names(entries)
      invariant forall n :: n in grouped <==> n in names
      invariant forall n | n in grouped :: grouped[n] == Intervals(entries, n)
    {
      ParseStep(lines, i, parse);
      var parsed := ParseLine(lines[i], parse);
      if parsed.Err? {
        ParseFailsLater(lines, i + 1, parse);
        return Err(ValueError);
      }
      var e := parsed.value;
      GroupStep(entries, e, grouped);
      var times := if e.name in grouped then grouped[e.name] else [];
      grouped := grouped[e.name := times + [e.interval]];
      names := if e.name in names then names else names + [e.name];
      entries := entries + [e];
    }
    assert lines[..|lines|] == lines;
    var sortedOutput := FormatGroups(names, grouped, entries, format);
    r := Ok(Join("\n", sortedOutput) + "\n");
  }

  /** Lines 121-124: one output line per key of `grouped_data`, in key order. */
  method FormatGroups(names: seq<string>, grouped: map<string, seq<Interval>>, ghost entries: seq<Entry>,
                      format: real -> string)
    returns (sortedOutput: seq<string>)
    requires forall n | n in names :: n in grouped && grouped[n] == Intervals(entries, n)
    ensures sortedOutput == OutputLines(names, entries, format)
  {
    sortedOutput := [];
    for j := 0 to |names|
      invariant sortedOutput == OutputLines(names[..j], entries, format)
    {
      assert names[..j + 1][..j] == names[..j];
      var times := grouped[names[j]];
      var timesStr := Join(" ", IntervalTexts(times, format));
      sortedOutput := sortedOutput + [names[j] + " " + timesStr];
    }
    assert names[..|names|] == names;
  }

  /** One `grouped_data[name].append(...)`, a missing key starting as `[]`. */
  lemma GroupStep(entries: seq<Entry>, e: Entry, grouped: map<string, seq<Interval>>)
    requires forall n :: n in grouped <==> n in Names(entries)
    requires forall n | n in grouped :: grouped[n] == Intervals(entries, n)
    ensures Names(entries + [e]) == if e.name in Names(entries) then Names(entries) else Names(entries) + [e.name]
    ensures var times := if e.name in grouped then grouped[e.name] else [];
      var after := grouped[e.name := times + [e.interval]];
      (forall n :: n in after <==> n in Names(entries + [e])) &&
      (forall n | n in after :: after[n] == Intervals(entries + [e], n))
  {
    IntervalsAppend(entries, e);
    if e.name !in grouped {
      AbsentNoIntervals(entries, e.name);
    }
  }

  lemma ParseStep(lines: seq<string>, i: nat, parse: string -> Option<real>)
    requires i < |lines| && ParseAll(lines[..i], parse).Ok?
    ensures ParseAll(lines[..i + 1], parse) ==
      match ParseLine(lines[i], parse)
      case Err(e) => Err(e)
      case Ok(x) => Ok(ParseAll(lines[..i], parse).value + [x])
  {
    assert lines[..i + 1][..i] == lines[..i];
  }

  /** Once a line fails, the whole file fails. */
  lemma {:induction false} ParseFailsLater(lines: seq<string>, i: nat, parse: string -> Option<real>)
    requires i <= |lines| && ParseAll(lines[..i], parse).Err?
    ensures ParseAll(lines, parse) == Err(ValueError)
    decreases |lines| - i
  {
    if i == |lines| {
      assert lines[..i] == lines;
    } else {
      assert lines[..i + 1][..i] == lines[..i];
      ParseFailsLater(lines, i + 1, parse);
    }
  }

  lemma IntervalsAppend(entries: seq<Entry>, e: Entry)
    ensures forall n :: Intervals(entries + [e], n) == Intervals(entries, n) + (if e.name == n then [e.interval] else [])
    ensures Names(entries + [e]) == if e.name in Names(entries) then Names(entries) else Names(entries) + [e.name]
  {
    assert (entries + [e])[..|entries|] == entries;
  }

  lemma IntervalsSnoc(entries: seq<Entry>, e: Entry, name: string)
    ensures Intervals(entries + [e], name) == Intervals(entries, name) + (if e.name == name then [e.interval] else [])
  {
    assert (entries + [e])[..|entries|] == entries;
  }

  lemma NamesSnoc(entries: seq<Entry>, e: Entry)
    ensures Names(entries + [e]) == if e.name in Names(entries) then Names(entries) else Names(entries) + [e.name]
  {
    assert (entries + [e])[..|entries|] == entries;
  }

  // ---------------------------------------------------------------------
  // What the grouping promises

  /** A name is listed exactly when some entry carries it. */
  lemma {:induction false} NamesAppear(entries: seq<Entry>)
    ensures forall k | 0 <= k < |entries| :: entries[k].name in Names(entries)
    ensures forall n | n in Names(entries) :: Position(entries, n) < |entries|
    decreases |entries|
  {
    if entries != [] {
      var n := |entries| - 1;
      var front := entries[..n];
      NamesAppear(front);
      assert forall k | 0 <= k < n :: entries[k] == front[k];
    }
  }

  /** `AbsentNoIntervals`: a name never seen has no intervals yet. */
  lemma {:induction false} AbsentNoIntervals(entries: seq<Entry>, name: string)
    requires name !in Names(entries)
    ensures Intervals(entries, name) == []
    decreases |entries|
  {
    if entries != [] {
      var front := entries[..|entries| - 1];
      assert Names(front) <= Names(entries) || name !in Names(front);
      AbsentNoIntervals(front, name);
    }
  }

  /** Each name is listed once. */
  lemma {:induction false} NamesDistinct(entries: seq<Entry>)
    ensures forall i, j | 0 <= i < j < |Names(entries)| :: Names(entries)[i] != Names(entries)[j]
    decreases |entries|
  {
    if entries != [] {
      NamesDistinct(entries[..|entries| - 1]);
    }
  }

  /** Names are listed in the order of their first appearance. */
  lemma {:induction false} NamesInFirstAppearanceOrder(entries: seq<Entry>)
    ensures forall i, j | 0 <= i < j < |Names(entries)| ::
      Position(entries, Names(entries)[i]) < Position(entries, Names(entries)[j])
    decreases |entries|
  {
    if entries != [] {
      var n := |entries| - 1;
      var front := entries[..n];
      var e := entries[n];
      assert entries == front + [e];
      NamesInFirstAppearanceOrder(front);
      NamesAppear(front);
      NamesSnoc(front, e);
      var names := Names(front);
      forall i | 0 <= i < |names|
        ensures Position(entries, names[i]) == Position(front, names[i]) < n
      {
        PositionKept(front, e, names[i]);
      }
      if e.name !in names {
        PositionNew(front, e);
      }
    }
  }

  lemma PositionKept(front: seq<Entry>, e: Entry, name: string)
    requires Position(front, name) < |front|
    ensures Position(front + [e], name) == Position(front, name)
  {
    assert (front + [e])[..|front|] == front;
  }

  lemma PositionNew(front: seq<Entry>, e: Entry)
    requires e.name !in Names(front)
    ensures Position(front + [e], e.name) == |front|
  {
    assert (front + [e])[..|front|] == front;
    NamesAppear(front);
  }

  /** Every listed name has at least one interval. */
  lemma {:induction false} IntervalsNonEmpty(entries: seq<Entry>, name: string)
    requires name in Names(entries)
    ensures Intervals(entries, name) != []
    decreases |entries|
  {
    var front := entries[..|entries| - 1];
    if name in Names(front) {
      IntervalsNonEmpty(front, name);
    }
  }

  /** The total of `|Intervals(entries, n)|` over `names`. */
  function IntervalCount(entries: seq<Entry>, names: seq<string>): nat {
    if names == [] then 0
    else IntervalCount(entries, names[..|names| - 1]) + |Intervals(entries, names[|names| - 1])|
  }

  lemma {:induction false} IntervalCountStep(entries: seq<Entry>, e: Entry, names: seq<string>)
    requires forall i, j | 0 <= i < j < |names| :: names[i] != names[j]
    ensures IntervalCount(entries + [e], names) == IntervalCount(entries, names) + (if e.name in names then 1 else 0)
    decreases |names|
  {
    if names != [] {
      var front := names[..|names| - 1];
      var last := names[|names| - 1];
      IntervalCountStep(entries, e, front);
      IntervalsSnoc(entries, e, last);
      assert e.name in names <==> e.name in front || e.name == last;
    }
  }

  /** No interval is lost or duplicated: all groups together hold one interval per line. */
  lemma {:induction false} IntervalsPartition(entries: seq<Entry>)
    ensures IntervalCount(entries, Names(entries)) == |entries|
    decreases |entries|
  {
    if entries != [] {
      var n := |entries| - 1;
      var front := entries[..n];
      var e := entries[n];
      assert entries == front + [e];
      IntervalsPartition(front);
      NamesDistinct(front);
      IntervalCountStep(front, e, Names(front));
      NamesSnoc(front, e);
      if e.name !in Names(front) {
        var names := Names(front) + [e.name];
        assert names[..|names| - 1] == Names(front);
        AbsentNoIntervals(front, e.name);
        IntervalsSnoc(front, e, e.name);
      }
    }
  }

  /** Output line k is the k-th name, a space and its intervals. */
  lemma {:induction false} OutputLineAt(names: seq<string>, entries: seq<Entry>, format: real -> string, k: nat)
    requires k < |names|
    ensures OutputLines(names, entries, format)[k] == OutputLine(names[k], Intervals(entries, names[k]), format)
    decreases |names|
  {
    var n := |names| - 1;
    var front := names[..n];
    if k < n {
      OutputLineAt(front, entries, format, k);
      assert front[k] == names[k];
    } else {
      assert |OutputLines(front, entries, format)| == k;
    }
  }

  /** Python's float repr read back by `float`: a non-empty token free of
      white space that parses to the number printed. */
  ghost predicate FloatsRoundTrip(parse: string -> Option<real>, format: real -> string) {
    forall x :: format(x) != "" && NoSpace(format(x)) && parse(format(x)) == Some(x)
  }

  /** A translated entity that survives the `strip` of line 118 and stays on
      one line when the file is read back with universal newlines, where both
      `'\n'` and `'\r'` end a line. */
  ghost predicate Readable(name: string) {
    name != "" && !IsSpace(name[|name| - 1]) &&
    forall i | 0 <= i < |name| :: name[i] != '\n' && name[i] != '\r'
  }

  function Entries(annotations: seq<Annotation>, translate: string -> string): (entries: seq<Entry>)
    ensures |entries| == |annotations|
  {
    if annotations == [] then []
    else
      var a := annotations[|annotations| - 1];
      Entries(annotations[..|annotations| - 1], translate) + [Entry(translate(a.entity), (a.start, a.end))]
  }

  /** Each written line is read back as its translated entity with its
      interval. The name is everything after the second space, so it may hold
      spaces of its own. */
  lemma WrittenLineReadBack(a: Annotation, parse: string -> Option<real>, format: real -> string, translate: string -> string)
    requires FloatsRoundTrip(parse, format)
    requires Readable(translate(a.entity))
    ensures ParseLine(WriterLine(a, format, translate), parse) == Ok(Entry(translate(a.entity), (a.start, a.end)))
  {
    var s, e, name := format(a.start), format(a.end), translate(a.entity);
    assert WriterLine(a, format, translate) == s + " " + e + " " + name + "\n";
    LineFieldsSplit(s, e, name);
    assert parse(s) == Some(a.start) && parse(e) == Some(a.end);
  }

  /** The stripped line cuts into the two numbers and the whole name. */
  lemma LineFieldsSplit(s: string, e: string, name: string)
    requires s != "" && NoSpace(s) && NoSpace(e) && Readable(name)
    ensures SplitMax(Strip(s + " " + e + " " + name + "\n"), ' ', 2) == [s, e, name]
  {
    var text := s + " " + e + " " + name;
    assert text[0] == s[0] && text[|text| - 1] == name[|name| - 1];
    StripNewline(text);
    LineFieldsCut(s, e, name);
  }

  lemma LineFieldsCut(s: string, e: string, name: string)
    requires NoSpace(s) && NoSpace(e)
    ensures SplitMax(s + " " + e + " " + name, ' ', 2) == [s, e, name]
  {
    assert ' ' !in s && ' ' !in e;
    var rest := e + [' '] + name;
    SplitMaxCons(e, name, ' ', 1);
    assert SplitMax(name, ' ', 0) == [name];
    SplitMaxCons(s, rest, ' ', 2);
    LineRegroup(s, e, name);
  }

  lemma LineRegroup(s: string, e: string, name: string)
    ensures s + " " + e + " " + name == s + [' '] + (e + [' '] + name)
  {
    var a := s + [' '];
    AppendAssoc(a, e, [' ']);
    AppendAssoc(a, e + [' '], name);
  }

  /** The file of lines 93-95 is read back annotation by annotation. */
  lemma {:induction false} WrittenFileReadBack(annotations: seq<Annotation>, parse: string -> Option<real>,
                                              format: real -> string, translate: string -> string)
    requires FloatsRoundTrip(parse, format)
    requires forall i | 0 <= i < |annotations| :: Readable(translate(annotations[i].entity))
    ensures ParseAll(WriterLines(annotations, format, translate), parse) == Ok(Entries(annotations, translate))
    decreases |annotations|
  {
    if annotations != [] {
      var n := |annotations| - 1;
      var front := annotations[..n];
      WrittenFileReadBack(front, parse, format, translate);
      WrittenLineReadBack(annotations[n], parse, format, translate);
      var lines := WriterLines(annotations, format, translate);
      assert lines[..|lines| - 1] == WriterLines(front, format, translate);
    }
  }

  /** The rewrite of a file written by lines 93-95 groups the annotations
      themselves: one interval per annotation, under its translated entity. */
  lemma WrittenFileGrouped(annotations: seq<Annotation>, parse: string -> Option<real>,
                           format: real -> string, translate: string -> string)
    requires FloatsRoundTrip(parse, format)
    requires forall i | 0 <= i < |annotations| :: Readable(translate(annotations[i].entity))
    ensures Rewrite(WriterLines(annotations, format, translate), parse, format) ==
      Ok(Content(Entries(annotations, translate), format))
  {
    WrittenFileReadBack(annotations, parse, format, translate);
  }

  /** An entity whose translation holds a line break puts that break inside
      the written line, before its final `'\n'`: the file then holds more
      lines than annotations, which is why `Readable` rules it out. */
  lemma LineBreakInside(a: Annotation, format: real -> string, translate: string -> string, i: nat)
    requires i < |translate(a.entity)| && translate(a.entity)[i] in {'\n', '\r'}
    ensures var line := WriterLine(a, format, translate);
      var j := |format(a.start)| + |format(a.end)| + 2 + i;
      j < |line| - 1 && line[j] == translate(a.entity)[i]
  {
    var s, e, name := format(a.start), format(a.end), translate(a.entity);
    var head := s + " " + e + " ";
    assert WriterLine(a, format, translate) == head + name + "\n";
    assert |head| == |s| + |e| + 2;
  }

  /** An entity translated to nothing but white space leaves two fields after
      the `strip`, and the unpacking of line 118 raises `ValueError`. */
  lemma BlankEntityFails(a: Annotation, parse: string -> Option<real>, format: real -> string, translate: string -> string)
    requires FloatsRoundTrip(parse, format)
    requires forall i | 0 <= i < |translate(a.entity)| :: IsSpace(translate(a.entity)[i])
    ensures ParseLine(WriterLine(a, format, translate), parse) == Err(ValueError)
  {
    var s, e, blank := format(a.start), format(a.end), translate(a.entity);
    var text := s + " " + e;
    var tail := " " + blank + "\n";
    assert WriterLine(a, format, translate) == text + tail;
    assert text[0] == s[0] && text[|text| - 1] == e[|e| - 1];
    StripTrailing(text, tail);
    assert ' ' !in s && ' ' !in e;
    SplitMaxCons(s, e, ' ', 2);
  }
}
