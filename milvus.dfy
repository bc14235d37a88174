/** `MilvusDB` in my-project/src/my_project/milvus_module.py: routing items
    to the collection of their type, the embedding-dimension check and the
    metadata filter of `insert` (lines 52-71), the merge, stable sort and
    top-k cut of `similarity_search` (lines 73-101), and the page/line
    numbering of the example run (lines 129-136 and 152).

    The embedder and the vector search are parameters; distances are `real`s.
    A collection is the sequence of the rows inserted into it. */
module Milvus {
  import opened Results
  import opened Text

  /** A JSON value of an item: the texts and the page and line numbers. */
  datatype Value = Str(s: string) | Num(n: int)

  type Item = map<string, Value>

  /** The inserted `document`: `file`, `embedding` and `metadata`. */
  datatype Row = Row(file: Value, embedding: seq<real>, metadata: Item)

  /** Lines 14-18. */
  const Collections: map<string, string> :=
    map["document" := "rag_document_collection", "audio" := "rag_audio_collection", "image" := "rag_image_collection"]

  /** `self.collections.values()`, in insertion order. */
  const CollectionOrder: seq<string> := ["rag_document_collection", "rag_audio_collection", "rag_image_collection"]

  /** The default `top_k` of line 73. */
  const DefaultTopK := 5

  /** The keys line 63 leaves out of the metadata. */
  const Reserved: seq<string> := ["type", "file", "text"]

  /** How a dictionary key that was not found is reported. */
  function KeyText(v: Value): string {
    match v
    case Str(s) => s
    case Num(n) => IntToString(n)
  }

  /** Line 63. */
  function Metadata(item: Item): Item {
    map k | k in item && k !in Reserved :: item[k]
  }

  /** Lines 54-69 for one item: the collection it goes to and the row, or the
      first error in the order the source meets them. */
  function Prepare(item: Item, embed: Value -> seq<real>, dim: nat): Result<(string, Row)> {
    if "type" !in item then Err(KeyError("type"))
    else if !(item["type"].Str? && item["type"].s in Collections) then Err(KeyError(KeyText(item["type"])))
    else if "text" !in item then Err(KeyError("text"))
    else
      var embedding := embed(item["text"]);
      if |embedding| != dim then Err(ValueError)
      else if "file" !in item then Err(KeyError("file"))
      else Ok((Collections[item["type"].s], Row(item["file"], embedding, Metadata(item))))
  }

  /** `collection.insert([document])`. */
  function Append(rows: map<string, seq<Row>>, name: string, row: Row): map<string, seq<Row>> {
    rows[name := (if name in rows then rows[name] else []) + [row]]
  }

  /** The collections after `insert(data)`, and the error that stopped it;
      the items before the failing one stay inserted. */
  datatype InsertOutcome = InsertOutcome(rows: map<string, seq<Row>>, error: Option<Error>)

  function InsertAll(rows: map<string, seq<Row>>, data: seq<Item>, embed: Value -> seq<real>, dim: nat): InsertOutcome
    decreases |data|
  {
    if data == [] then InsertOutcome(rows, None)
    else match Prepare(data[0], embed, dim)
      case Err(e) => InsertOutcome(rows, Some(e))
      case Ok(p) => InsertAll(Append(rows, p.0, p.1), data[1..], embed, dim)
  }

  /** One hit of `collection.search`: `entity.get('file')`, `entity.get('metadata')`
      and the distance. */
  datatype Hit = Hit(file: Option<Value>, metadata: Option<Value>, distance: real)

  /** One entry of `all_results` (lines 90-95). */
  datatype Found = Found(collection: string, file: Option<Value>, metadata: Option<Value>, distance: real)

  function Tagged(name: string, hits: seq<Hit>): (found: seq<Found>)
    ensures |found| == |hits|
  {
    if hits == [] then []
    else
      var h := hits[|hits| - 1];
      Tagged(name, hits[..|hits| - 1]) + [Found(name, h.file, h.metadata, h.distance)]
  }

  /** `all_results` after the loop of lines 77-97 over `names`. */
  function Gathered(search: string -> seq<Hit>, names: seq<string>): seq<Found> {
    if names == [] then []
    else Gathered(search, names[..|names| - 1]) + Tagged(names[|names| - 1], search(names[|names| - 1]))
  }

  class MilvusDB {
    const embeddingDim: nat
    var rows: map<string, seq<Row>>

    /** Lines 10-22: `embedding_dim` is the length of the sample text's embedding. */
    constructor (embed: Value -> seq<real>)
      ensures embeddingDim == |embed(Str("This is a sample text to get embedding dimension."))| && rows == map[]
    {
      embeddingDim := |embed(Str("This is a sample text to get embedding dimension."))|;
      rows := map[];
    }

    /** Lines 52-71. */
    method Insert(data: seq<Item>, embed: Value -> seq<real>) returns (error: Option<Error>)
      modifies this
      ensures InsertOutcome(rows, error) == InsertAll(old(rows), data, embed, embeddingDim)
    {
      for i := 0 to |data|
        invariant InsertAll(rows, data[i..], embed, embeddingDim) == InsertAll(old(rows), data, embed, embeddingDim)
      {
        assert data[i..][0] == data[i] && data[i..][1..] == data[i + 1..];
        var prepared := Prepare(data[i], embed, embeddingDim);
        if prepared.Err? {
          return Some(prepared.error);
        }
        var (name, row) := prepared.value;
        rows := Append(rows, name, row);
      }
      assert data[|data|..] == [];
      error := None;
    }

    /** Lines 73-101, with `search(name)` the hits of collection `name` for
        the query. */
    method SimilaritySearch(search: string -> seq<Hit>, topK: int) returns (results: seq<Found>)
      ensures results == SliceTo(SortByDistance(Gathered(search, CollectionOrder)), topK)
    {
      var allResults: seq<Found> := [];
      for c := 0 to |CollectionOrder|
        invariant allResults == Gathered(search, CollectionOrder[..c])
      {
        var name := CollectionOrder[c];
        var hits := search(name);
        ghost var before := allResults;
        for h := 0 to |hits|
          invariant allResults == before + Tagged(name, hits[..h])
        {
          assert hits[..h + 1][..h] == hits[..h];
          allResults := allResults + [Found(name, hits[h].file, hits[h].metadata, hits[h].distance)];
        }
        assert hits[..|hits|] == hits;
        assert CollectionOrder[..c + 1][..c] == CollectionOrder[..c];
      }
      assert CollectionOrder[..|CollectionOrder|] == CollectionOrder;
      allResults := SortByDistance(allResults);
      results := SliceTo(allResults, topK);
    }
  }

  // ---------------------------------------------------------------------
  // `list.sort(key=distance)`: stable

  ghost predicate Sorted(s: seq<Found>) {
    forall i, j | 0 <= i < j < |s| :: s[i].distance <= s[j].distance
  }

  /** `x` placed after every element whose distance is at most its own. */
  function InsertSorted(s: seq<Found>, x: Found): (r: seq<Found>)
    ensures |r| == |s| + 1
  {
    if s == [] then [x]
    else if s[|s| - 1].distance <= x.distance then s + [x]
    else InsertSorted(s[..|s| - 1], x) + [s[|s| - 1]]
  }

  /** A stable sort by distance; Python's sort is stable, so any stable sort
      gives this order. */
  function SortByDistance(s: seq<Found>): (r: seq<Found>)
    ensures |r| == |s|
  {
    if s == [] then []
    else InsertSorted(SortByDistance(s[..|s| - 1]), s[|s| - 1])
  }

  /** The elements at distance `d`, in order. */
  function Ties(s: seq<Found>, d: real): seq<Found> {
    if s == [] then []
    else Ties(s[..|s| - 1], d) + (if s[|s| - 1].distance == d then [s[|s| - 1]] else [])
  }

  lemma TiesAppend(s: seq<Found>, x: Found, d: real)
    ensures Ties(s + [x], d) == Ties(s, d) + (if x.distance == d then [x] else [])
  {
    assert (s + [x])[..|s|] == s;
  }

  lemma {:induction false} InsertSortedKeeps(s: seq<Found>, x: Found)
    ensures multiset(InsertSorted(s, x)) == multiset(s) + multiset{x}
    ensures forall i | 0 <= i < |InsertSorted(s, x)| :: InsertSorted(s, x)[i] in multiset(s) + multiset{x}
    decreases |s|
  {
    if s != [] && s[|s| - 1].distance > x.distance {
      var front := s[..|s| - 1];
      InsertSortedKeeps(front, x);
      assert s == front + [s[|s| - 1]];
    }
  }

  lemma {:induction false} InsertSortedSorted(s: seq<Found>, x: Found)
    requires Sorted(s)
    ensures Sorted(InsertSorted(s, x))
    decreases |s|
  {
    if s != [] && s[|s| - 1].distance > x.distance {
      var front := s[..|s| - 1];
      var last := s[|s| - 1];
      InsertSortedSorted(front, x);
      InsertSortedKeeps(front, x);
      var r := InsertSorted(front, x);
      forall i | 0 <= i < |r| ensures r[i].distance <= last.distance {
        assert r[i] in multiset(front) + multiset{x};
        if r[i] in multiset(front) {
          var j :| 0 <= j < |front| && front[j] == r[i];
        }
      }
      assert InsertSorted(s, x) == r + [last];
    }
  }

  lemma {:induction false} InsertSortedTies(s: seq<Found>, x: Found, d: real)
    requires Sorted(s)
    ensures Ties(InsertSorted(s, x), d) == Ties(s, d) + (if x.distance == d then [x] else [])
    decreases |s|
  {
    if s == [] {
      var none: seq<Found> := [];
      TiesAppend(none, x, d);
      assert none + [x] == [x];
    } else if s[|s| - 1].distance <= x.distance {
      TiesAppend(s, x, d);
    } else {
      var front := s[..|s| - 1];
      var last := s[|s| - 1];
      assert s == front + [last];
      assert Sorted(front);
      InsertSortedTies(front, x, d);
      InsertPastTies(front, last, x, d);
    }
  }

  /** One step of InsertSortedTies: `x` goes before a `last` that is farther. */
  lemma InsertPastTies(front: seq<Found>, last: Found, x: Found, d: real)
    requires x.distance < last.distance
    requires Ties(InsertSorted(front, x), d) == Ties(front, d) + (if x.distance == d then [x] else [])
    ensures Ties(InsertSorted(front + [last], x), d) == Ties(front + [last], d) + (if x.distance == d then [x] else [])
  {
    var r := InsertSorted(front, x);
    assert (front + [last])[..|front|] == front;
    assert InsertSorted(front + [last], x) == r + [last];
    TiesAppend(r, last, d);
    TiesAppend(front, last, d);
    var tiedX: seq<Found> := if x.distance == d then [x] else [];
    var tiedLast: seq<Found> := if last.distance == d then [last] else [];
    assert tiedX == [] || tiedLast == [];
    AppendAssoc(Ties(front, d), tiedX, tiedLast);
    AppendAssoc(Ties(front, d), tiedLast, tiedX);
  }

  /** The sort orders by distance. */
  lemma {:induction false} SortSorted(s: seq<Found>)
    ensures Sorted(SortByDistance(s))
    decreases |s|
  {
    if s != [] {
      SortSorted(s[..|s| - 1]);
      InsertSortedSorted(SortByDistance(s[..|s| - 1]), s[|s| - 1]);
    }
  }

  /** The sort neither loses nor adds a result. */
  lemma {:induction false} SortPermutes(s: seq<Found>)
    ensures multiset(SortByDistance(s)) == multiset(s)
    decreases |s|
  {
    if s != [] {
      var front := s[..|s| - 1];
      SortPermutes(front);
      InsertSortedKeeps(SortByDistance(front), s[|s| - 1]);
      assert s == front + [s[|s| - 1]];
    }
  }

  /** The sort is stable: results at the same distance keep their order. */
  lemma {:induction false} SortStable(s: seq<Found>, d: real)
    ensures Ties(SortByDistance(s), d) == Ties(s, d)
    decreases |s|
  {
    if s != [] {
      var front := s[..|s| - 1];
      SortStable(front, d);
      SortSorted(front);
      InsertSortedTies(SortByDistance(front), s[|s| - 1], d);
    }
  }

  // ---------------------------------------------------------------------
  // What the search promises

  /** At most `top_k` results (a negative `top_k` drops that many from the
      end, as Python's slice does). */
  lemma SearchBound(search: string -> seq<Hit>, topK: int)
    ensures var results := SliceTo(SortByDistance(Gathered(search, CollectionOrder)), topK);
      (topK >= 0 ==> |results| <= topK) &&
      |results| <= |Gathered(search, CollectionOrder)|
  {
  }

  /** The results are in non-decreasing distance, and none is farther than
      any hit the cut leaves out. */
  lemma SearchNearestFirst(search: string -> seq<Hit>, topK: int)
    ensures var sorted := SortByDistance(Gathered(search, CollectionOrder));
      var results := SliceTo(sorted, topK);
      Sorted(results) &&
      forall i, j | 0 <= i < |results| <= j < |sorted| :: results[i].distance <= sorted[j].distance
  {
    var sorted := SortByDistance(Gathered(search, CollectionOrder));
    SortSorted(Gathered(search, CollectionOrder));
    PrefixSorted(sorted, |SliceTo(sorted, topK)|);
  }

  lemma PrefixSorted(sorted: seq<Found>, k: nat)
    requires Sorted(sorted) && k <= |sorted|
    ensures Sorted(sorted[..k])
    ensures forall i, j | 0 <= i < k <= j < |sorted| :: sorted[..k][i].distance <= sorted[j].distance
  {
  }

  /** Every result is a hit of one of the collections, and none is repeated
      more often than it was found. */
  lemma SearchFromHits(search: string -> seq<Hit>, topK: int)
    ensures var all := Gathered(search, CollectionOrder);
      multiset(SliceTo(SortByDistance(all), topK)) <= multiset(all)
  {
    var all := Gathered(search, CollectionOrder);
    var sorted := SortByDistance(all);
    SortPermutes(all);
    PrefixMultiset(sorted, |SliceTo(sorted, topK)|);
  }

  lemma PrefixMultiset(s: seq<Found>, k: nat)
    requires k <= |s|
    ensures multiset(s[..k]) <= multiset(s)
  {
    assert s == s[..k] + s[k..];
  }

  /** `all_results` holds the hits of the three collections in the order of
      lines 14-18, each tagged with its collection. */
  lemma GatheredInOrder(search: string -> seq<Hit>)
    ensures Gathered(search, CollectionOrder) ==
      Tagged("rag_document_collection", search("rag_document_collection")) +
      Tagged("rag_audio_collection", search("rag_audio_collection")) +
      Tagged("rag_image_collection", search("rag_image_collection"))
  {
    var names := CollectionOrder;
    var none: seq<Found> := [];
    assert names[..1][..0] == [] && names[..2][..1] == names[..1] && names[..3][..2] == names[..2];
    assert names[..3] == names;
    assert Gathered(search, names[..1]) == none + Tagged(names[0], search(names[0]));
    assert Gathered(search, names[..2]) == Gathered(search, names[..1]) + Tagged(names[1], search(names[1]));
    assert Gathered(search, names) == Gathered(search, names[..2]) + Tagged(names[2], search(names[2]));
  }

  // ---------------------------------------------------------------------
  // What the insert promises

  /** Every key but `type`, `file` and `text` is kept, with its value. */
  lemma MetadataKept(item: Item)
    ensures Metadata(item).Keys == item.Keys - {"type", "file", "text"}
    ensures forall k | k in Metadata(item) :: Metadata(item)[k] == item[k]
  {
  }

  /** A prepared row is routed by its type, carries an embedding of the
      expected size, the item's `file` and its filtered metadata. */
  lemma PreparedRow(item: Item, embed: Value -> seq<real>, dim: nat)
    requires Prepare(item, embed, dim).Ok?
    ensures var (name, row) := Prepare(item, embed, dim).value;
      "type" in item && item["type"].Str? && item["type"].s in Collections.Keys &&
      name == Collections[item["type"].s] && name in CollectionOrder &&
      |row.embedding| == dim && "file" in item && row.file == item["file"] && row.metadata == Metadata(item)
  {
  }

  /** An embedding of the wrong size raises `ValueError` once type and text
      are found; an unknown type is a `KeyError` before anything else. */
  lemma PrepareErrors(item: Item, embed: Value -> seq<real>, dim: nat)
    ensures "type" in item && !(item["type"].Str? && item["type"].s in Collections) ==>
      Prepare(item, embed, dim) == Err(KeyError(KeyText(item["type"])))
    ensures ("type" in item && item["type"].Str? && item["type"].s in Collections && "text" in item &&
             |embed(item["text"])| != dim) ==> Prepare(item, embed, dim) == Err(ValueError)
  {
  }

  /** `insert` reports no error exactly when every item prepares. */
  lemma {:induction false} InsertSucceeds(rows: map<string, seq<Row>>, data: seq<Item>, embed: Value -> seq<real>, dim: nat)
    ensures InsertAll(rows, data, embed, dim).error.None? <==> forall i | 0 <= i < |data| :: Prepare(data[i], embed, dim).Ok?
    decreases |data|
  {
    if data != [] {
      match Prepare(data[0], embed, dim)
      case Err(e) =>
      case Ok(p) =>
        var rest := data[1..];
        InsertSucceeds(Append(rows, p.0, p.1), rest, embed, dim);
        assert forall i | 0 <= i < |rest| :: rest[i] == data[i + 1];
        if InsertAll(rows, data, embed, dim).error.None? {
          forall i | 0 <= i < |data| ensures Prepare(data[i], embed, dim).Ok? {
            if i > 0 {
              assert data[i] == rest[i - 1];
            }
          }
        }
    }
  }

  /** `insert` stops at the first item that fails, with that item's error. */
  lemma {:induction false} InsertStopsAt(rows: map<string, seq<Row>>, data: seq<Item>, embed: Value -> seq<real>, dim: nat)
    ensures var o := InsertAll(rows, data, embed, dim);
      o.error.Some? ==> exists i | 0 <= i < |data| :: Prepare(data[i], embed, dim) == Err(o.error.value) &&
                          forall j | 0 <= j < i :: Prepare(data[j], embed, dim).Ok?
    decreases |data|
  {
    if data != [] {
      match Prepare(data[0], embed, dim)
      case Err(e) =>
      case Ok(p) =>
        var rest := data[1..];
        InsertStopsAt(Append(rows, p.0, p.1), rest, embed, dim);
        var o := InsertAll(rows, data, embed, dim);
        if o.error.Some? {
          var i :| 0 <= i < |rest| && Prepare(rest[i], embed, dim) == Err(o.error.value) &&
                   forall j | 0 <= j < i :: Prepare(rest[j], embed, dim).Ok?;
          assert data[i + 1] == rest[i];
          forall j | 0 <= j < i + 1 ensures Prepare(data[j], embed, dim).Ok? {
            if j > 0 {
              assert data[j] == rest[j - 1];
            }
          }
        }
    }
  }

  /** The rows a collection holds, none when it was never inserted into. */
  function Held(rows: map<string, seq<Row>>, name: string): seq<Row> {
    if name in rows then rows[name] else []
  }

  /** The index of the first item that does not prepare, or the number of
      items when all do. */
  function FirstFailure(data: seq<Item>, embed: Value -> seq<real>, dim: nat): (k: nat)
    ensures k <= |data|
    ensures forall i | 0 <= i < k :: Prepare(data[i], embed, dim).Ok?
    ensures k < |data| ==> Prepare(data[k], embed, dim).Err?
    decreases |data|
  {
    if data == [] || Prepare(data[0], embed, dim).Err? then 0
    else 1 + FirstFailure(data[1..], embed, dim)
  }

  /** The rows of the prepared `items` that are routed to `name`, in order. */
  function RowsFor(items: seq<Item>, embed: Value -> seq<real>, dim: nat, name: string): seq<Row>
    decreases |items|
  {
    if items == [] then []
    else
      var here := match Prepare(items[0], embed, dim)
        case Ok(p) => if p.0 == name then [p.1] else []
        case Err(_) => [];
      here + RowsFor(items[1..], embed, dim, name)
  }

  /** What `insert` leaves: every collection holds its old rows followed by
      the rows routed to it from the items before the first failure, in
      order, and the error is that failure's. */
  lemma {:induction false} InsertStores(rows: map<string, seq<Row>>, data: seq<Item>, embed: Value -> seq<real>,
                                        dim: nat, name: string)
    ensures var o := InsertAll(rows, data, embed, dim);
      var k := FirstFailure(data, embed, dim);
      Held(o.rows, name) == Held(rows, name) + RowsFor(data[..k], embed, dim, name) &&
      o.error == if k < |data| then Some(Prepare(data[k], embed, dim).error) else None
    decreases |data|
  {
    if data != [] {
      match Prepare(data[0], embed, dim)
      case Err(e) =>
        assert data[..0] == [];
      case Ok(p) =>
        var rest := data[1..];
        var rows1 := Append(rows, p.0, p.1);
        InsertStores(rows1, rest, embed, dim, name);
        var k1 := FirstFailure(rest, embed, dim);
        var here := if p.0 == name then [p.1] else [];
        RowsForHead(data, k1, embed, dim, name);
        assert Held(rows1, name) == Held(rows, name) + here;
        AppendAssoc(Held(rows, name), here, RowsFor(rest[..k1], embed, dim, name));
        assert k1 < |rest| ==> rest[k1] == data[k1 + 1];
    }
  }

  lemma RowsForHead(data: seq<Item>, k: nat, embed: Value -> seq<real>, dim: nat, name: string)
    requires k < |data| && Prepare(data[0], embed, dim).Ok?
    ensures var p := Prepare(data[0], embed, dim).value;
      RowsFor(data[..k + 1], embed, dim, name) ==
        (if p.0 == name then [p.1] else []) + RowsFor(data[1..][..k], embed, dim, name)
  {
    var prefix := data[..k + 1];
    assert prefix[0] == data[0] && prefix[1..] == data[1..][..k];
  }

  /** Collections other than the ones the items are routed to are untouched. */
  lemma {:induction false} InsertOnlyRouted(rows: map<string, seq<Row>>, data: seq<Item>, embed: Value -> seq<real>,
                                            dim: nat, name: string)
    requires name !in CollectionOrder
    ensures var o := InsertAll(rows, data, embed, dim);
      (name in o.rows <==> name in rows) && (name in rows ==> o.rows[name] == rows[name])
    decreases |data|
  {
    if data != [] {
      match Prepare(data[0], embed, dim)
      case Err(e) =>
      case Ok(p) =>
        PreparedRow(data[0], embed, dim);
        InsertOnlyRouted(Append(rows, p.0, p.1), data[1..], embed, dim, name);
    }
  }

  // ---------------------------------------------------------------------
  // The example run: 40 lines to a page (lines 129-136 and 152)

  function PageOf(i: nat): int {
    i / 40 + 1
  }

  function LineOf(i: nat): int {
    i % 40 + 1
  }

  /** Lines 133-134 and 152: a line's number `i` gives a page from 1 and a
      line in 1..40, and `page * 40 + line - 41` gives `i` back. */
  lemma PageLineIndex(i: nat)
    ensures PageOf(i) >= 1 && 1 <= LineOf(i) <= 40
    ensures PageOf(i) * 40 + LineOf(i) - 41 == i
  {
  }

  /** Conversely every page from 1 and line in 1..40 is the numbering of
      exactly the index line 152 computes. */
  lemma IndexPageLine(page: int, line: int)
    requires page >= 1 && 1 <= line <= 40
    ensures var i := page * 40 + line - 41;
      i >= 0 && PageOf(i) == page && LineOf(i) == line
  {
    var i := page * 40 + line - 41;
    assert i == (page - 1) * 40 + (line - 1);
  }

  /** The item built for line `i` of the book (lines 130-136). */
  function BookItem(i: nat, text: string): Item {
    map["type" := Str("document"), "file" := Str("mobydick.txt"),
        "page" := Num(PageOf(i)), "line" := Num(LineOf(i)), "text" := Str(text)]
  }

  /** A book line is stored in the document collection with only its page
      and line as metadata, and the index line 152 computes from them is the
      line itself. */
  lemma BookLineStored(i: nat, text: string, embed: Value -> seq<real>, dim: nat)
    requires |embed(Str(text))| == dim
    ensures var r := Prepare(BookItem(i, text), embed, dim);
      r.Ok? && r.value.0 == "rag_document_collection" &&
      r.value.1.metadata == map["page" := Num(PageOf(i)), "line" := Num(LineOf(i))] &&
      r.value.1.metadata["page"].n * 40 + r.value.1.metadata["line"].n - 41 == i
  {
    var item := BookItem(i, text);
    MetadataKept(item);
    assert item.Keys == {"type", "file", "page", "line", "text"};
    assert Metadata(item).Keys == {"page", "line"};
    PageLineIndex(i);
  }
}
