/** `MinIOClient.get_metadata_from_minio` in
    my-project/src/my_project/minio_client.py (lines 46-59): the same key as
    the database helper and the same first-match selection, written with
    `next(generator, default)`, but with shorter replies that give the stored
    content alone. */
module MinioClient {
  import opened Results
  import opened Text
  import opened Metadata
  import MinioDatabase

  const InvalidRequest := "Invalid type or parameters."

  function PageMissing(n: int): string {
    "Page " + IntToString(n) + " not found"
  }

  function StartTimeMissing(t: string): string {
    "Start time " + t + " not found"
  }

  function ImageReply(content: string): string {
    "Image metadata: " + content
  }

  /** `next((p["content"] for p in pages if p["page_number"] == n), default)`. */
  function NextPageContent(pages: seq<Page>, n: int, default: string): (r: string)
    ensures match FirstPage(pages, n)
      case Some(i) => r == pages[i].content
      case None => r == default
  {
    if pages == [] then default
    else if pages[0].pageNumber == n then pages[0].content
    else
      var r := NextPageContent(pages[1..], n, default);
      assert forall j | 0 <= j < |pages| - 1 :: pages[1..][j] == pages[j + 1];
      r
  }

  /** `next((t["content"] for t in cues if t["start_time"] == t0), default)`. */
  function NextCueContent(cues: seq<Cue>, t: string, default: string): (r: string)
    ensures match FirstCue(cues, t)
      case Some(i) => r == cues[i].content
      case None => r == default
  {
    if cues == [] then default
    else if cues[0].startTime == t then cues[0].content
    else
      var r := NextCueContent(cues[1..], t, default);
      assert forall j | 0 <= j < |cues| - 1 :: cues[1..][j] == cues[j + 1];
      r
  }

  /** The selection of lines 50-56 for a stored document. */
  function Select(d: Document, fileType: string, pageNumber: Option<int>, startTime: Option<string>): Result<string> {
    if fileType == "pdf" && pageNumber.Some? then
      if d.pages.None? then Err(KeyError("pages"))
      else Ok(NextPageContent(d.pages.value, pageNumber.value, PageMissing(pageNumber.value)))
    else if fileType == "mp3" && startTime.Some? then
      if d.transcription.None? then Err(KeyError("transcription"))
      else Ok(NextCueContent(d.transcription.value, startTime.value, StartTimeMissing(startTime.value)))
    else if fileType == "jpg" || fileType == "png" then
      if d.content.None? then Err(KeyError("content"))
      else Ok(ImageReply(d.content.value))
    else Ok(InvalidRequest)
  }

  /** Lines 46-59: `None` when the object cannot be read (`S3Error`). */
  function GetMetadataFromMinio(store: Store, bucket: string, fileName: string, fileType: string,
                                pageNumber: Option<int>, startTime: Option<string>): Result<Option<string>>
  {
    var key := ObjectName(fileName, fileType);
    if bucket in store && key in store[bucket] then
      match Select(store[bucket][key], fileType, pageNumber, startTime)
      case Ok(s) => Ok(Some(s))
      case Err(e) => Err(e)
    else Ok(None)
  }

  /** A pdf request returns the content of the first page with that number,
      or says the page is not found. */
  lemma PdfLookup(store: Store, bucket: string, fileName: string, n: int)
    requires bucket in store && ObjectName(fileName, "pdf") in store[bucket]
    requires store[bucket][ObjectName(fileName, "pdf")].pages.Some?
    ensures var pages := store[bucket][ObjectName(fileName, "pdf")].pages.value;
      var r := GetMetadataFromMinio(store, bucket, fileName, "pdf", Some(n), None);
      ((forall i | 0 <= i < |pages| :: pages[i].pageNumber != n) ==> r == Ok(Some(PageMissing(n)))) &&
      (forall i | 0 <= i < |pages| && pages[i].pageNumber == n && (forall j | 0 <= j < i :: pages[j].pageNumber != n) ::
         r == Ok(Some(pages[i].content)))
  {
    var pages := store[bucket][ObjectName(fileName, "pdf")].pages.value;
    forall i | 0 <= i < |pages| && pages[i].pageNumber == n && (forall j | 0 <= j < i :: pages[j].pageNumber != n)
      ensures GetMetadataFromMinio(store, bucket, fileName, "pdf", Some(n), None) == Ok(Some(pages[i].content))
    {
      FirstPageAt(pages, n, i);
    }
  }

  /** An mp3 request returns the content of the first entry whose start time
      is the same string, or says the start time is not found. */
  lemma Mp3Lookup(store: Store, bucket: string, fileName: string, t: string)
    requires bucket in store && ObjectName(fileName, "mp3") in store[bucket]
    requires store[bucket][ObjectName(fileName, "mp3")].transcription.Some?
    ensures var cues := store[bucket][ObjectName(fileName, "mp3")].transcription.value;
      var r := GetMetadataFromMinio(store, bucket, fileName, "mp3", None, Some(t));
      ((forall i | 0 <= i < |cues| :: cues[i].startTime != t) ==> r == Ok(Some(StartTimeMissing(t)))) &&
      (forall i | 0 <= i < |cues| && cues[i].startTime == t && (forall j | 0 <= j < i :: cues[j].startTime != t) ::
         r == Ok(Some(cues[i].content)))
  {
    var cues := store[bucket][ObjectName(fileName, "mp3")].transcription.value;
    forall i | 0 <= i < |cues| && cues[i].startTime == t && (forall j | 0 <= j < i :: cues[j].startTime != t)
      ensures GetMetadataFromMinio(store, bucket, fileName, "mp3", None, Some(t)) == Ok(Some(cues[i].content))
    {
      FirstCueAt(cues, t, i);
    }
  }

  /** Images answer with their content; every other request that is neither
      a pdf page nor an mp3 start time is invalid. */
  lemma OtherRequests(store: Store, bucket: string, fileName: string, fileType: string,
                      pageNumber: Option<int>, startTime: Option<string>)
    requires bucket in store && ObjectName(fileName, fileType) in store[bucket]
    requires !(fileType == "pdf" && pageNumber.Some?) && !(fileType == "mp3" && startTime.Some?)
    ensures var d := store[bucket][ObjectName(fileName, fileType)];
      var r := GetMetadataFromMinio(store, bucket, fileName, fileType, pageNumber, startTime);
      (fileType in {"jpg", "png"} && d.content.Some? ==> r == Ok(Some(ImageReply(d.content.value)))) &&
      (fileType in {"jpg", "png"} && d.content.None? ==> r == Err(KeyError("content"))) &&
      (fileType !in {"jpg", "png"} ==> r == Ok(Some(InvalidRequest)))
  {
  }

  /** Both lookups read the same object and pick the same page or entry: they
      fail alike, find nothing alike, and differ only in the wording of a
      found or missing reply. */
  lemma SameSelection(store: Store, bucket: string, fileName: string, fileType: string,
                      pageNumber: Option<int>, startTime: Option<string>)
    ensures var client := GetMetadataFromMinio(store, bucket, fileName, fileType, pageNumber, startTime);
      var database := MinioDatabase.Lookup(store, bucket, fileName, fileType, pageNumber, startTime);
      (client == Ok(None) <==> database == Ok(None)) &&
      (client.Err? <==> database.Err?) &&
      (client.Err? ==> client == database)
    ensures var key := ObjectName(fileName, fileType);
      bucket in store && key in store[bucket] && fileType == "pdf" && pageNumber.Some? &&
      store[bucket][key].pages.Some? ==>
        var pages, n := store[bucket][key].pages.value, pageNumber.value;
        var client := GetMetadataFromMinio(store, bucket, fileName, fileType, pageNumber, startTime);
        var database := MinioDatabase.Lookup(store, bucket, fileName, fileType, pageNumber, startTime);
        match FirstPage(pages, n)
        case Some(i) =>
          client == Ok(Some(pages[i].content)) &&
          database == Ok(Some(MinioDatabase.PdfFound(fileName, n, pages[i].content)))
        case None =>
          client == Ok(Some(PageMissing(n))) && database == Ok(Some(MinioDatabase.PdfMissing(fileName, n)))
    ensures var key := ObjectName(fileName, fileType);
      bucket in store && key in store[bucket] && fileType == "mp3" && startTime.Some? &&
      store[bucket][key].transcription.Some? ==>
        var cues, t := store[bucket][key].transcription.value, startTime.value;
        var client := GetMetadataFromMinio(store, bucket, fileName, fileType, pageNumber, startTime);
        var database := MinioDatabase.Lookup(store, bucket, fileName, fileType, pageNumber, startTime);
        match FirstCue(cues, t)
        case Some(i) =>
          client == Ok(Some(cues[i].content)) &&
          database == Ok(Some(MinioDatabase.Mp3Found(fileName, t, cues[i].content)))
        case None =>
          client == Ok(Some(StartTimeMissing(t))) && database == Ok(Some(MinioDatabase.Mp3Missing(fileName, t)))
  {
  }

  /** A document uploaded through the client (the same `put_object` as the
      database helper) is found again by its own file name and type. */
  lemma UploadThenLookup(store: Store, bucket: string, d: Document, pageNumber: Option<int>, startTime: Option<string>)
    requires bucket in store
    ensures var after := Upload(store, bucket, ObjectName(d.fileName, d.fileType), d);
      GetMetadataFromMinio(after, bucket, d.fileName, d.fileType, pageNumber, startTime) ==
        match Select(d, d.fileType, pageNumber, startTime)
        case Ok(s) => Ok(Some(s))
        case Err(e) => Err(e)
  {
  }
}
