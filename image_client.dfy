/** `ImageTextExtractorUploader.upload_image_metadata` in
    my-project/src/my_project/image_text_extractor_uploader.py (lines 17-27):
    the name is the first dot-field of the basename and the extension the
    second, so a basename without a dot raises `IndexError` before any OCR,
    and an OCR failure is not caught. The OCR result is given as input:
    `None` stands for an exception. */
module ImageClient {
  import opened Results
  import opened Text
  import opened Metadata
  import ImageDatabase
  import MinioClient

  /** Lines 18-27: the store after the upload, or the error raised. */
  function UploadImageMetadata(store: Store, imagePath: string, ocr: Option<string>): (r: Result<Store>)
    ensures '.' !in Basename(imagePath) ==> r == Err(IndexError)
    ensures '.' in Basename(imagePath) && ocr.None? ==> r == Err(OcrFailure)
  {
    var parts := Split(Basename(imagePath), '.');
    if |parts| < 2 then Err(IndexError)
    else
      var fileNameWithoutExtension, fileExtension := parts[0], parts[1];
      match ocr
      case None => Err(OcrFailure)
      case Some(extractedText) =>
        var imageMetadata := Document(fileNameWithoutExtension, fileExtension, None, None, Some(extractedText));
        Ok(Upload(store, "images", ObjectName(fileNameWithoutExtension, fileExtension), imageMetadata))
  }

  /** With a dot and a successful OCR, the document holds the first two
      dot-fields and the text, stored under their object name. */
  lemma UploadFields(store: Store, imagePath: string, text: string)
    requires '.' in Basename(imagePath) && "images" in store
    ensures var parts := Split(Basename(imagePath), '.');
      |parts| >= 2 &&
      var r := UploadImageMetadata(store, imagePath, Some(text));
      r.Ok? && ObjectName(parts[0], parts[1]) in r.value["images"] &&
      r.value["images"][ObjectName(parts[0], parts[1])] == Document(parts[0], parts[1], None, None, Some(text))
  {
    JoinSplit(Basename(imagePath), '.');
  }

  lemma ObjectNameExample()
    ensures ObjectName("a", "b") == "a_b.json"
  {
    assert "a" + "_" + "b" + ".json" == "a_b.json";
  }

  /** "a.b.png" gets the extension "b", not "png", and is stored as "a_b.json". */
  lemma TwoDotsExample(store: Store)
    requires "images" in store
    ensures var r := UploadImageMetadata(store, "a.b.png", Some("t"));
      r.Ok? && "a_b.json" in r.value["images"] && r.value["images"]["a_b.json"].fileType == "b"
  {
    ImageDatabase.SplitTwoDots();
    ObjectNameExample();
  }

  /** For a basename with exactly one dot and a successful OCR both
      extractors store the same document under the same name. */
  lemma AgreesWithDatabase(store: Store, imagePath: string, text: string)
    requires |Split(Basename(imagePath), '.')| == 2
    ensures UploadImageMetadata(store, imagePath, Some(text)) ==
      Ok(ImageDatabase.UploadImageMetadataToMinio(store, imagePath, Some(text)))
  {
  }

  /** An uploaded jpg or png is found by the client lookup, whose reply
      carries the extracted text. */
  lemma UploadedImageFound(store: Store, imagePath: string, text: string,
                           pageNumber: Option<int>, startTime: Option<string>)
    requires "images" in store
    requires var parts := Split(Basename(imagePath), '.'); |parts| >= 2 && parts[1] in {"jpg", "png"}
    ensures var parts := Split(Basename(imagePath), '.');
      var r := UploadImageMetadata(store, imagePath, Some(text));
      r.Ok? &&
      MinioClient.GetMetadataFromMinio(r.value, "images", parts[0], parts[1], pageNumber, startTime) ==
        Ok(Some(MinioClient.ImageReply(text)))
  {
  }
}
