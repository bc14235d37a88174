/** The JSON metadata documents the uploaders store in MinIO and the lookups
    read back, as Dafny values, with the object naming both sides use: a
    document for `file_name` of type `type` is stored as
    `<file_name>_<type>.json`. JSON encoding itself is not modelled. */
module Metadata {
  import opened Results
  import opened Text

  /** `{"page_number": n, "content": text}`. */
  datatype Page = Page(pageNumber: int, content: string)

  /** `{"start_time": s, "end_time": e, "content": text}`. */
  datatype Cue = Cue(startTime: string, endTime: string, content: string)

  /** A stored document: `file_name` and `type` are always present, the other
      keys only for the kinds of document that have them. */
  datatype Document = Document(
    fileName: string,
    fileType: string,
    pages: Option<seq<Page>>,
    transcription: Option<seq<Cue>>,
    content: Option<string>)

  /** The MinIO server: buckets, each mapping object names to documents. */
  type Store = map<string, map<string, Document>>

  /** `f"{file_name}_{file_type}.json"`. */
  function ObjectName(fileName: string, fileType: string): (r: string)
    ensures StartsWith(r, fileName) && EndsWith(r, "_" + fileType + ".json")
  {
    var r := fileName + "_" + fileType + ".json";
    assert r[..|fileName|] == fileName;
    assert r[|r| - |"_" + fileType + ".json"|..] == "_" + fileType + ".json";
    r
  }

  /** For a fixed type the object name tells the file name. */
  lemma ObjectNameInjective(a: string, b: string, fileType: string)
    requires ObjectName(a, fileType) == ObjectName(b, fileType)
    ensures a == b
  {
    var x, y := ObjectName(a, fileType), ObjectName(b, fileType);
    assert |a| == |b|;
    assert a == x[..|a|] && b == y[..|b|];
  }

  /** Across types it does not: an underscore in either part can move. */
  lemma ObjectNameCollision()
    ensures ObjectName("x_png", "jpg") == ObjectName("x", "png_jpg")
  {
  }

  /** `put_object(bucket, name, document)`; a missing bucket makes MinIO raise
      `S3Error`, which the uploaders catch and print, so nothing is stored. */
  function Upload(store: Store, bucket: string, objectName: string, d: Document): (after: Store)
    ensures bucket in store ==> bucket in after && objectName in after[bucket] && after[bucket][objectName] == d
    ensures bucket !in store ==> after == store
    ensures forall b | b in store && b != bucket :: b in after && after[b] == store[b]
  {
    if bucket in store then store[bucket := store[bucket][objectName := d]] else store
  }

  /** Where the first page with number `n` is, as the lookup loops and
      `next(...)` find it. */
  function FirstPage(pages: seq<Page>, n: int): (r: Option<nat>)
    ensures r.Some? ==> r.value < |pages| && pages[r.value].pageNumber == n &&
                        forall j | 0 <= j < r.value :: pages[j].pageNumber != n
    ensures r.None? ==> forall i | 0 <= i < |pages| :: pages[i].pageNumber != n
  {
    if pages == [] then None
    else if pages[0].pageNumber == n then Some(0)
    else match FirstPage(pages[1..], n)
      case None => None
      case Some(i) => Some(i + 1)
  }

  /** Where the first transcription entry whose start time is exactly `t` is. */
  function FirstCue(cues: seq<Cue>, t: string): (r: Option<nat>)
    ensures r.Some? ==> r.value < |cues| && cues[r.value].startTime == t &&
                        forall j | 0 <= j < r.value :: cues[j].startTime != t
    ensures r.None? ==> forall i | 0 <= i < |cues| :: cues[i].startTime != t
  {
    if cues == [] then None
    else if cues[0].startTime == t then Some(0)
    else match FirstCue(cues[1..], t)
      case None => None
      case Some(i) => Some(i + 1)
  }

  /** The page a scan stops at is the one `FirstPage` names. */
  lemma FirstPageAt(pages: seq<Page>, n: int, i: nat)
    requires i < |pages| && pages[i].pageNumber == n
    requires forall j | 0 <= j < i :: pages[j].pageNumber != n
    ensures FirstPage(pages, n) == Some(i)
  {
  }

  lemma FirstCueAt(cues: seq<Cue>, t: string, i: nat)
    requires i < |cues| && cues[i].startTime == t
    requires forall j | 0 <= j < i :: cues[j].startTime != t
    ensures FirstCue(cues, t) == Some(i)
  {
  }

  /** Page numbers that strictly increase name each page once, so the first
      match is the only one: the page at the position holding that number. */
  lemma FirstPageUnique(pages: seq<Page>, i: nat)
    requires i < |pages|
    requires forall j, k | 0 <= j < k < |pages| :: pages[j].pageNumber < pages[k].pageNumber
    ensures FirstPage(pages, pages[i].pageNumber) == Some(i)
  {
  }
}
