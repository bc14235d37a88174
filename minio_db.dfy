/** `get_metadata_from_minio` and `upload_metadata_only` in
    minio_database/upload_to_minio.py: the lookup reads the document stored
    under `<file_name>_<file_type>.json` and answers with the first matching
    page or transcription entry, or with the image content, as a message. A
    missing bucket or object is an `S3Error`, which the function turns into
    `None`; a document without the key a branch reads raises `KeyError`. */
module MinioDatabase {
  import opened Results
  import opened Text
  import opened Metadata

  const InvalidRequest := "Invalid file type or missing parameters."

  function PdfFound(fileName: string, n: int, content: string): string {
    "Content of " + fileName + ".pdf, Page " + IntToString(n) + ": " + content
  }

  function PdfMissing(fileName: string, n: int): string {
    "Page " + IntToString(n) + " not found in " + fileName + ".pdf"
  }

  function Mp3Found(fileName: string, t: string, content: string): string {
    "Transcription of " + fileName + ".mp3, Start Time " + t + ": " + content
  }

  function Mp3Missing(fileName: string, t: string): string {
    "Transcription starting at " + t + " not found in " + fileName + ".mp3"
  }

  function ImageFound(fileName: string, fileType: string, content: string): string {
    "Image metadata for " + fileName + "." + fileType + ": content: " + content
  }

  /** The answer for a stored document `d` (lines 98-118). The second return
      of line 115 is never reached. */
  function Select(d: Document, fileName: string, fileType: string,
                  pageNumber: Option<int>, startTime: Option<string>): Result<string>
  {
    if fileType == "pdf" && pageNumber.Some? then
      if d.pages.None? then Err(KeyError("pages"))
      else match FirstPage(d.pages.value, pageNumber.value)
        case Some(i) => Ok(PdfFound(fileName, pageNumber.value, d.pages.value[i].content))
        case None => Ok(PdfMissing(fileName, pageNumber.value))
    else if fileType == "mp3" && startTime.Some? then
      if d.transcription.None? then Err(KeyError("transcription"))
      else match FirstCue(d.transcription.value, startTime.value)
        case Some(i) => Ok(Mp3Found(fileName, startTime.value, d.transcription.value[i].content))
        case None => Ok(Mp3Missing(fileName, startTime.value))
    else if fileType == "jpg" || fileType == "png" then
      if d.content.None? then Err(KeyError("content"))
      else Ok(ImageFound(fileName, d.fileType, d.content.value))
    else Ok(InvalidRequest)
  }

  /** The whole lookup: `None` when the object cannot be read. */
  function Lookup(store: Store, bucket: string, fileName: string, fileType: string,
                  pageNumber: Option<int>, startTime: Option<string>): Result<Option<string>>
  {
    var key := ObjectName(fileName, fileType);
    if bucket in store && key in store[bucket] then
      match Select(store[bucket][key], fileName, fileType, pageNumber, startTime)
      case Ok(s) => Ok(Some(s))
      case Err(e) => Err(e)
    else Ok(None)
  }

  /** Lines 90-122, with the two linear searches and their early returns. */
  method GetMetadataFromMinio(store: Store, bucket: string, fileName: string, fileType: string,
                              pageNumber: Option<int>, startTime: Option<string>)
    returns (r: Result<Option<string>>)
    ensures r == Lookup(store, bucket, fileName, fileType, pageNumber, startTime)
  {
    var metadataFileName := fileName + "_" + fileType + ".json";
    if bucket !in store || metadataFileName !in store[bucket] {
      return Ok(None);
    }
    var metadata := store[bucket][metadataFileName];
    if fileType == "pdf" && pageNumber.Some? {
      if metadata.pages.None? {
        return Err(KeyError("pages"));
      }
      var pages := metadata.pages.value;
      for i := 0 to |pages|
        invariant forall j | 0 <= j < i :: pages[j].pageNumber != pageNumber.value
      {
        if pages[i].pageNumber == pageNumber.value {
          FirstPageAt(pages, pageNumber.value, i);
          return Ok(Some(PdfFound(fileName, pageNumber.value, pages[i].content)));
        }
      }
      return Ok(Some(PdfMissing(fileName, pageNumber.value)));
    } else if fileType == "mp3" && startTime.Some? {
      if metadata.transcription.None? {
        return Err(KeyError("transcription"));
      }
      var transcription := metadata.transcription.value;
      for i := 0 to |transcription|
        invariant forall j | 0 <= j < i :: transcription[j].startTime != startTime.value
      {
        if transcription[i].startTime == startTime.value {
          FirstCueAt(transcription, startTime.value, i);
          return Ok(Some(Mp3Found(fileName, startTime.value, transcription[i].content)));
        }
      }
      return Ok(Some(Mp3Missing(fileName, startTime.value)));
    } else if fileType == "jpg" || fileType == "png" {
      if metadata.content.None? {
        return Err(KeyError("content"));
      }
      return Ok(Some(ImageFound(fileName, metadata.fileType, metadata.content.value)));
    } else {
      return Ok(Some(InvalidRequest));
    }
  }

  /** A pdf page request answers with the first page carrying that number, or
      says the page is not found when none does. */
  lemma PdfLookup(store: Store, bucket: string, fileName: string, n: int)
    requires bucket in store && ObjectName(fileName, "pdf") in store[bucket]
    requires store[bucket][ObjectName(fileName, "pdf")].pages.Some?
    ensures var pages := store[bucket][ObjectName(fileName, "pdf")].pages.value;
      var r := Lookup(store, bucket, fileName, "pdf", Some(n), None);
      ((forall i | 0 <= i < |pages| :: pages[i].pageNumber != n) ==> r == Ok(Some(PdfMissing(fileName, n)))) &&
      (forall i | 0 <= i < |pages| && pages[i].pageNumber == n && (forall j | 0 <= j < i :: pages[j].pageNumber != n) ::
         r == Ok(Some(PdfFound(fileName, n, pages[i].content))))
  {
    var pages := store[bucket][ObjectName(fileName, "pdf")].pages.value;
    PdfAnswer(store, bucket, fileName, pages, n);
    forall i | 0 <= i < |pages| && pages[i].pageNumber == n && (forall j | 0 <= j < i :: pages[j].pageNumber != n)
      ensures FirstPage(pages, n) == Some(i)
    {
      FirstPageAt(pages, n, i);
    }
  }

  /** A pdf request answers from the first page with the number. */
  lemma PdfAnswer(store: Store, bucket: string, fileName: string, pages: seq<Page>, n: int)
    requires bucket in store && ObjectName(fileName, "pdf") in store[bucket]
    requires store[bucket][ObjectName(fileName, "pdf")].pages == Some(pages)
    ensures Lookup(store, bucket, fileName, "pdf", Some(n), None) ==
      match FirstPage(pages, n)
      case Some(i) => Ok(Some(PdfFound(fileName, n, pages[i].content)))
      case None => Ok(Some(PdfMissing(fileName, n)))
  {
  }

  /** An mp3 request answers with the first entry whose start time is the
      same string, or says the start time is not found. */
  lemma Mp3Lookup(store: Store, bucket: string, fileName: string, t: string)
    requires bucket in store && ObjectName(fileName, "mp3") in store[bucket]
    requires store[bucket][ObjectName(fileName, "mp3")].transcription.Some?
    ensures var cues := store[bucket][ObjectName(fileName, "mp3")].transcription.value;
      var r := Lookup(store, bucket, fileName, "mp3", None, Some(t));
      ((forall i | 0 <= i < |cues| :: cues[i].startTime != t) ==> r == Ok(Some(Mp3Missing(fileName, t)))) &&
      (forall i | 0 <= i < |cues| && cues[i].startTime == t && (forall j | 0 <= j < i :: cues[j].startTime != t) ::
         r == Ok(Some(Mp3Found(fileName, t, cues[i].content))))
  {
    var cues := store[bucket][ObjectName(fileName, "mp3")].transcription.value;
    forall i | 0 <= i < |cues| && cues[i].startTime == t && (forall j | 0 <= j < i :: cues[j].startTime != t)
      ensures Lookup(store, bucket, fileName, "mp3", None, Some(t)) == Ok(Some(Mp3Found(fileName, t, cues[i].content)))
    {
      FirstCueAt(cues, t, i);
    }
  }

  /** A pdf request without a page, an mp3 request without a start time and
      any type other than pdf, mp3, jpg and png get the invalid-request
      message; a missing bucket or object gives `None`. */
  lemma InvalidRequests(store: Store, bucket: string, fileName: string, fileType: string,
                        pageNumber: Option<int>, startTime: Option<string>)
    ensures var key := ObjectName(fileName, fileType);
      var r := Lookup(store, bucket, fileName, fileType, pageNumber, startTime);
      (!(bucket in store && key in store[bucket]) ==> r == Ok(None)) &&
      (var invalid := (fileType == "pdf" && pageNumber.None?) || (fileType == "mp3" && startTime.None?) ||
                      fileType !in {"pdf", "mp3", "jpg", "png"};
       bucket in store && key in store[bucket] && invalid ==> r == Ok(Some(InvalidRequest)))
  {
  }

  /** Creating the three buckets of lines 134-139 when they are missing. */
  function EnsureBucket(store: Store, bucket: string): (after: Store)
    ensures bucket in after && after.Keys == store.Keys + {bucket}
    ensures forall b | b in store :: after[b] == store[b]
  {
    if bucket in store then store else store[bucket := map[]]
  }

  /** Lines 134-148: make the buckets, then store each document under the
      name built from its own `file_name` and `type`. */
  function UploadMetadataOnly(store: Store, pdf: Document, audio: Document, image: Document): Store {
    var s := EnsureBucket(EnsureBucket(EnsureBucket(store, "pdfs"), "audio-video"), "images");
    var s1 := Upload(s, "pdfs", ObjectName(pdf.fileName, pdf.fileType), pdf);
    var s2 := Upload(s1, "audio-video", ObjectName(audio.fileName, audio.fileType), audio);
    Upload(s2, "images", ObjectName(image.fileName, image.fileType), image)
  }

  /** Looking a document up by its own file name and type reads exactly
      what was uploaded. */
  lemma UploadThenLookup(store: Store, bucket: string, d: Document, pageNumber: Option<int>, startTime: Option<string>)
    requires bucket in store
    ensures var after := Upload(store, bucket, ObjectName(d.fileName, d.fileType), d);
      Lookup(after, bucket, d.fileName, d.fileType, pageNumber, startTime) ==
        match Select(d, d.fileName, d.fileType, pageNumber, startTime)
        case Ok(s) => Ok(Some(s))
        case Err(e) => Err(e)
  {
  }

  /** After `upload_metadata_only` each of the three documents is found in its
      bucket under its own name and type. */
  lemma UploadedDocumentsFound(store: Store, pdf: Document, audio: Document, image: Document,
                               pageNumber: Option<int>, startTime: Option<string>)
    ensures var after := UploadMetadataOnly(store, pdf, audio, image);
      Lookup(after, "pdfs", pdf.fileName, pdf.fileType, pageNumber, startTime) ==
        (match Select(pdf, pdf.fileName, pdf.fileType, pageNumber, startTime)
         case Ok(s) => Ok(Some(s)) case Err(e) => Err(e)) &&
      Lookup(after, "audio-video", audio.fileName, audio.fileType, pageNumber, startTime) ==
        (match Select(audio, audio.fileName, audio.fileType, pageNumber, startTime)
         case Ok(s) => Ok(Some(s)) case Err(e) => Err(e)) &&
      Lookup(after, "images", image.fileName, image.fileType, pageNumber, startTime) ==
        (match Select(image, image.fileName, image.fileType, pageNumber, startTime)
         case Ok(s) => Ok(Some(s)) case Err(e) => Err(e))
  {
    var s := EnsureBucket(EnsureBucket(EnsureBucket(store, "pdfs"), "audio-video"), "images");
    var s1 := Upload(s, "pdfs", ObjectName(pdf.fileName, pdf.fileType), pdf);
    var s2 := Upload(s1, "audio-video", ObjectName(audio.fileName, audio.fileType), audio);
    var after := Upload(s2, "images", ObjectName(image.fileName, image.fileType), image);
    assert after["pdfs"] == s1["pdfs"];
    assert after["audio-video"] == s2["audio-video"];
  }
}
