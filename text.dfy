/** The few Python string and path operations the modelled code relies on,
    with the Python semantics spelled out: `str.split`, `str.join`, `str.strip`,
    `str(int)`, `str.startswith`/`endswith`, `os.path.basename`,
    `os.path.join` and slicing with `[:k]`. */
module Text {
  import opened Results

  /** Python's `str.isspace` for one character. */
  predicate IsSpace(c: char) {
    c == ' ' || ('\t' <= c <= '\r') || ('\U{1c}' <= c <= '\U{1f}') || c == '\U{85}' ||
    c == '\U{a0}' || c == '\U{1680}' || ('\U{2000}' <= c <= '\U{200a}') ||
    c == '\U{2028}' || c == '\U{2029}' || c == '\U{202f}' || c == '\U{205f}' || c == '\U{3000}'
  }

  /** No character of `s` is white space (so no line break either). */
  predicate NoSpace(s: string) {
    forall i | 0 <= i < |s| :: !IsSpace(s[i])
  }

  predicate StartsWith(s: string, prefix: string) {
    |prefix| <= |s| && s[..|prefix|] == prefix
  }

  predicate EndsWith(s: string, suffix: string) {
    |suffix| <= |s| && s[|s| - |suffix|..] == suffix
  }

  /** Index of the first `c` in `s`, like `str.find` (None for -1). */
  function IndexOf(s: string, c: char): (r: Option<nat>)
    ensures r.Some? ==> r.value < |s| && s[r.value] == c && c !in s[..r.value]
    ensures r.None? ==> c !in s
  {
    if s == [] then None
    else if s[0] == c then Some(0)
    else match IndexOf(s[1..], c)
      case None => None
      case Some(i) => assert s[..i + 1] == [s[0]] + s[1..][..i]; Some(i + 1)
  }

  /** `s.split(c, maxsplit)`: at most `maxsplit` cuts, the rest stays whole. */
  function SplitMax(s: string, c: char, maxsplit: nat): (parts: seq<string>)
    ensures 1 <= |parts| <= maxsplit + 1
    ensures forall k | 0 <= k < |parts| - 1 :: c !in parts[k]
    ensures c !in s ==> parts == [s]
    decreases |s|
  {
    if maxsplit == 0 then [s]
    else match IndexOf(s, c)
      case None => [s]
      case Some(i) => [s[..i]] + SplitMax(s[i + 1..], c, maxsplit - 1)
  }

  /** `s.split(c)` with no limit: every cut is taken. */
  function Split(s: string, c: char): (parts: seq<string>)
    ensures |parts| >= 1
    ensures forall k | 0 <= k < |parts| :: c !in parts[k]
    ensures c !in s ==> parts == [s]
    decreases |s|
  {
    match IndexOf(s, c)
    case None => [s]
    case Some(i) => [s[..i]] + Split(s[i + 1..], c)
  }

  /** `sep.join(parts)`. */
  function Join(sep: string, parts: seq<string>): string {
    if parts == [] then ""
    else if |parts| == 1 then parts[0]
    else parts[0] + sep + Join(sep, parts[1..])
  }

  /** Splitting on `c` and joining with `c` gives the string back. */
  lemma {:induction false} JoinSplit(s: string, c: char)
    ensures Join([c], Split(s, c)) == s
    decreases |s|
  {
    match IndexOf(s, c)
    case None =>
    case Some(i) =>
      var head, tail := s[..i], s[i + 1..];
      CutAt(s, i);
      SplitCons(head, tail, c);
      JoinSplit(tail, c);
      JoinCons(head, [c], Split(tail, c));
  }

  /** `s` is what comes before position `i`, the character there and the rest. */
  lemma CutAt(s: string, i: nat)
    requires i < |s|
    ensures s == s[..i] + [s[i]] + s[i + 1..]
  {
  }

  lemma AppendAssoc<T>(a: seq<T>, b: seq<T>, c: seq<T>)
    ensures a + (b + c) == a + b + c
  {
  }

  lemma JoinCons(first: string, sep: string, rest: seq<string>)
    requires rest != []
    ensures Join(sep, [first] + rest) == first + sep + Join(sep, rest)
  {
    assert ([first] + rest)[1..] == rest;
  }

  /** A first field free of `c` is cut off at the first `c`. */
  lemma SplitCons(x: string, y: string, c: char)
    requires c !in x
    ensures Split(x + [c] + y, c) == [x] + Split(y, c)
  {
    var s := x + [c] + y;
    AppendAssoc(x, [c], y);
    IndexOfAfter(x, [c] + y, c);
    assert s[..|x|] == x && s[|x| + 1..] == y;
  }

  /** Two fields free of `c`, joined by one `c`, split back into exactly those two. */
  lemma SplitPair(x: string, y: string, c: char)
    requires c !in x && c !in y
    ensures Split(x + [c] + y, c) == [x, y]
  {
    SplitCons(x, y, c);
  }

  /** Three fields free of `c`, joined by `c`, split back into exactly those three. */
  lemma SplitThree(x: string, y: string, z: string, c: char)
    requires c !in x && c !in y && c !in z
    ensures Split(x + [c] + y + [c] + z, c) == [x, y, z]
  {
    var xc, rest := x + [c], y + [c] + z;
    AppendAssoc(xc, y, [c]);
    AppendAssoc(xc, y + [c], z);
    assert x + [c] + y + [c] + z == xc + rest;
    SplitCons(x, rest, c);
    SplitPair(y, z, c);
  }

  /** A first field free of `c` is cut off at the first `c`, using up one split. */
  lemma SplitMaxCons(x: string, y: string, c: char, maxsplit: nat)
    requires c !in x && maxsplit >= 1
    ensures SplitMax(x + [c] + y, c, maxsplit) == [x] + SplitMax(y, c, maxsplit - 1)
  {
    var s := x + [c] + y;
    AppendAssoc(x, [c], y);
    IndexOfAfter(x, [c] + y, c);
    assert s[..|x|] == x && s[|x| + 1..] == y;
  }

  /** Stripping drops a run of white space at the end and nothing before it. */
  lemma {:induction false} StripTrailing(x: string, tail: string)
    requires x != [] && !IsSpace(x[0]) && !IsSpace(x[|x| - 1])
    requires forall i | 0 <= i < |tail| :: IsSpace(tail[i])
    ensures Strip(x + tail) == x
    decreases |tail|
  {
    if tail == [] {
      assert x + tail == x;
    } else {
      var front := tail[..|tail| - 1];
      StripTrailing(x, front);
      assert (x + tail)[..|x + tail| - 1] == x + front;
    }
  }

  lemma {:induction false} IndexOfAfter(x: string, rest: string, c: char)
    requires c !in x && rest != [] && rest[0] == c
    ensures IndexOf(x + rest, c) == Some(|x|)
  {
    if x != [] {
      assert (x + rest)[1..] == x[1..] + rest;
      IndexOfAfter(x[1..], rest, c);
    } else {
      assert x + rest == rest;
    }
  }

  /** How many white-space characters `s` starts with. */
  function LeadingSpaces(s: string): (n: nat)
    ensures n <= |s| && (n < |s| ==> !IsSpace(s[n]))
  {
    if s != [] && IsSpace(s[0]) then LeadingSpaces(s[1..]) + 1 else 0
  }

  /** Where the white space `s` ends with begins. */
  function TrailingStart(s: string): (n: nat)
    ensures n <= |s| && (n > 0 ==> !IsSpace(s[n - 1]))
  {
    if s != [] && IsSpace(s[|s| - 1]) then TrailingStart(s[..|s| - 1]) else |s|
  }

  /** The part of `s` left after dropping white space on the left. */
  function StripLeft(s: string): (r: string)
    ensures r == [] || !IsSpace(r[0])
  {
    s[LeadingSpaces(s)..]
  }

  /** The part of `s` left after dropping white space on the right. */
  function StripRight(s: string): (r: string)
    ensures r == [] || !IsSpace(r[|r| - 1])
  {
    s[..TrailingStart(s)]
  }

  /** `s.strip()`. */
  function Strip(s: string): string {
    StripLeft(StripRight(s))
  }

  /** What `strip` leaves neither starts nor ends with white space. */
  lemma StripTrimmed(s: string)
    ensures var r := Strip(s); r == [] || (!IsSpace(r[0]) && !IsSpace(r[|r| - 1]))
  {
  }

  /** A line read back with its newline strips to the text written, when that
      text neither starts nor ends with whitespace. */
  lemma StripNewline(s: string)
    requires s == [] || (!IsSpace(s[0]) && !IsSpace(s[|s| - 1]))
    ensures Strip(s + "\n") == s
  {
    var t := s + "\n";
    assert IsSpace(t[|t| - 1]);
    assert t[..|t| - 1] == s;
    assert TrailingStart(t) == |s|;
  }

  /** Words that are non-empty and free of whitespace, joined by spaces, give
      a text that neither starts nor ends with whitespace. */
  lemma {:induction false} JoinTrimmed(words: seq<string>)
    requires forall i | 0 <= i < |words| :: words[i] != "" && NoSpace(words[i])
    ensures var j := Join(" ", words);
      words != [] ==> |j| > 0 && !IsSpace(j[0]) && !IsSpace(j[|j| - 1])
    decreases |words|
  {
    if |words| > 1 {
      var rest := words[1..];
      JoinTrimmed(rest);
      var j := Join(" ", words);
      assert j == words[0] + " " + Join(" ", rest);
      assert j[0] == words[0][0];
    }
  }

  /** A string holding `c` splits into at least two parts. */
  lemma CutSplits(s: string, c: char)
    requires c in s
    ensures |Split(s, c)| >= 2
  {
  }

  function DigitChar(d: nat): (c: char)
    requires d < 10
    ensures '0' <= c <= '9'
  {
    "0123456789"[d]
  }

  /** Decimal digits of `n`, no sign and no leading zero. */
  function NatToString(n: nat): string {
    if n < 10 then [DigitChar(n)] else NatToString(n / 10) + [DigitChar(n % 10)]
  }

  /** At least one digit, nothing but digits, a single digit exactly for the
      numbers below ten, and no leading zero. */
  lemma {:induction false} NatToStringDigits(n: nat)
    ensures var r := NatToString(n);
      |r| >= 1 && (forall i | 0 <= i < |r| :: '0' <= r[i] <= '9') &&
      (n >= 10 ==> r[0] != '0') && ((|r| == 1) == (n < 10))
  {
    if n >= 10 {
      NatToStringDigits(n / 10);
    }
  }

  /** `str(n)` for a Python int. */
  function IntToString(n: int): string {
    if n < 0 then "-" + NatToString(-n) else NatToString(n)
  }

  /** A minus sign exactly for the negative numbers; otherwise a non-empty run
      of digits. */
  lemma IntToStringShape(n: int)
    ensures var r := IntToString(n);
      (n < 0) == ('-' in r) && (n >= 0 ==> |r| >= 1 && NoSpace(r) && r[0] != '-')
  {
    NatToStringDigits(if n < 0 then -n else n);
    if n >= 0 {
      var r := NatToString(n);
      assert forall i | 0 <= i < |r| :: '0' <= r[i] <= '9';
    }
  }

  lemma DigitCharInjective(a: nat, b: nat)
    requires a < 10 && b < 10 && DigitChar(a) == DigitChar(b)
    ensures a == b
  {
  }

  /** Different numbers are written differently. */
  lemma {:induction false} NatToStringInjective(m: nat, n: nat)
    requires NatToString(m) == NatToString(n)
    ensures m == n
  {
    var sm, sn := NatToString(m), NatToString(n);
    NatToStringDigits(m);
    NatToStringDigits(n);
    if m < 10 && n < 10 {
      DigitCharInjective(m, n);
    } else if m >= 10 && n >= 10 {
      var hm, hn := NatToString(m / 10), NatToString(n / 10);
      assert sm == hm + [DigitChar(m % 10)] && sn == hn + [DigitChar(n % 10)];
      assert hm == sm[..|sm| - 1] && hn == sn[..|sn| - 1];
      NatToStringInjective(m / 10, n / 10);
      DigitCharInjective(m % 10, n % 10);
    }
  }

  /** `os.path.basename`: what follows the last `/`. */
  function Basename(path: string): (r: string)
    ensures '/' !in r
    ensures EndsWith(path, r)
  {
    var parts := Split(path, '/');
    JoinSplit(path, '/');
    JoinEndsWithLast(parts, ['/']);
    parts[|parts| - 1]
  }

  lemma {:induction false} JoinEndsWithLast(parts: seq<string>, sep: string)
    requires parts != []
    ensures EndsWith(Join(sep, parts), parts[|parts| - 1])
  {
    if |parts| > 1 {
      JoinEndsWithLast(parts[1..], sep);
      var j := Join(sep, parts[1..]);
      var whole := parts[0] + sep + j;
      assert whole[|whole| - |j|..] == j;
      var last := parts[|parts| - 1];
      assert whole[|whole| - |last|..] == j[|j| - |last|..];
    }
  }

  /** `pathlib.Path(path).name`: the last component once empty and `.`
      components are dropped (`""` when none is left). */
  function PathName(path: string): (r: string)
    ensures '/' !in r && r != "."
  {
    LastComponent(Split(path, '/'))
  }

  function LastComponent(parts: seq<string>): (r: string)
    requires forall k | 0 <= k < |parts| :: '/' !in parts[k]
    ensures '/' !in r && r != "."
    ensures r == "" || r in parts
  {
    if parts == [] then ""
    else if parts[|parts| - 1] == "" || parts[|parts| - 1] == "." then LastComponent(parts[..|parts| - 1])
    else parts[|parts| - 1]
  }

  /** A plain file name is its own `Path(...).name`, and whenever the last
      component is a real name, `Path(...).name` and `os.path.basename` agree. */
  lemma PathNameIsBasename(path: string)
    requires Basename(path) != "" && Basename(path) != "."
    ensures PathName(path) == Basename(path)
  {
  }

  /** POSIX `os.path.join(a, b)` for two components. */
  function PathJoin(a: string, b: string): string {
    if StartsWith(b, "/") then b
    else if a == [] || EndsWith(a, "/") then a + b
    else a + "/" + b
  }

  /** The joined path ends with its last component. */
  lemma PathJoinEndsWith(a: string, b: string)
    ensures EndsWith(PathJoin(a, b), b)
  {
    if !StartsWith(b, "/") {
      if a == [] || EndsWith(a, "/") {
        assert (a + b)[|a + b| - |b|..] == b;
      } else {
        assert (a + "/" + b)[|a + "/" + b| - |b|..] == b;
      }
    }
  }

  /** Python's `s[:k]`, a negative `k` counting from the end. */
  function SliceTo<T>(s: seq<T>, k: int): (r: seq<T>)
    ensures |r| == if k >= 0 then (if k <= |s| then k else |s|) else (if |s| + k >= 0 then |s| + k else 0)
    ensures r == s[..|r|]
  {
    if k >= 0 then (if k <= |s| then s[..k] else s)
    else (if |s| + k >= 0 then s[..|s| + k] else [])
  }
}
