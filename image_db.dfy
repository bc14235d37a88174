/** `extract_text_from_image` and `upload_image_metadata_to_minio` in
    minio_database/image_text_extractor_and_uploader.py: the file name is the
    basename up to its first dot, the type what follows its last dot, and
    the OCR text, or "" when extraction raised, is stored in the "images"
    bucket. The OCR result is given as input: `None` stands for an
    exception. */
module ImageDatabase {
  import opened Results
  import opened Text
  import opened Metadata
  import MinioDatabase

  /** Lines 20-37: any exception becomes the empty text. */
  function ExtractTextFromImage(ocr: Option<string>): (text: string)
    ensures ocr.Some? ==> text == ocr.value
    ensures ocr.None? ==> text == ""
  {
    match ocr
    case Some(extractedText) => extractedText
    case None => ""
  }

  /** `os.path.basename(image_path).split('.')[0]` (line 50). */
  function ImageFileName(imagePath: string): string {
    Split(Basename(imagePath), '.')[0]
  }

  /** `os.path.basename(image_path).split('.')[-1]` (line 51). */
  function ImageExtension(imagePath: string): string {
    var parts := Split(Basename(imagePath), '.');
    parts[|parts| - 1]
  }

  /** The document of lines 54-58: file name, type and content, nothing else. */
  function ImageDocument(imagePath: string, ocr: Option<string>): (d: Document)
    ensures d.pages.None? && d.transcription.None? && d.content == Some(ExtractTextFromImage(ocr))
  {
    Document(ImageFileName(imagePath), ImageExtension(imagePath), None, None, Some(ExtractTextFromImage(ocr)))
  }

  /** Lines 47-62. */
  function UploadImageMetadataToMinio(store: Store, imagePath: string, ocr: Option<string>): (after: Store)
    ensures "images" in store ==>
      "images" in after &&
      ObjectName(ImageFileName(imagePath), ImageExtension(imagePath)) in after["images"] &&
      after["images"][ObjectName(ImageFileName(imagePath), ImageExtension(imagePath))] == ImageDocument(imagePath, ocr)
    ensures "images" !in store ==> after == store
  {
    var imageMetadata := ImageDocument(imagePath, ocr);
    Upload(store, "images", ObjectName(imageMetadata.fileName, imageMetadata.fileType), imageMetadata)
  }

  /** The two fields never hold a dot; without a dot in the basename both
      are the whole basename. */
  lemma NameAndExtension(imagePath: string)
    ensures '.' !in ImageFileName(imagePath) && '.' !in ImageExtension(imagePath)
    ensures '.' !in Basename(imagePath) ==>
      ImageFileName(imagePath) == Basename(imagePath) && ImageExtension(imagePath) == Basename(imagePath)
  {
  }

  /** "a.b.png" is its own basename and has three dot-fields. */
  lemma SplitTwoDots()
    ensures Basename("a.b.png") == "a.b.png"
    ensures Split("a.b.png", '.') == ["a", "b", "png"]
  {
    var path := "a.b.png";
    assert '/' !in path;
    assert path == "a" + ['.'] + "b" + ['.'] + "png";
    SplitThree("a", "b", "png", '.');
  }

  /** "a.b.png" has file name "a" and type "png" ... */
  lemma TwoDotsFields()
    ensures ImageFileName("a.b.png") == "a" && ImageExtension("a.b.png") == "png"
  {
    SplitTwoDots();
  }

  lemma ObjectNameExample()
    ensures ObjectName("a", "png") == "a_png.json"
  {
    assert "a" + "_" + "png" + ".json" == "a_png.json";
  }

  /** ... so it is stored as "a_png.json". */
  lemma TwoDotsObjectName()
    ensures ObjectName(ImageFileName("a.b.png"), ImageExtension("a.b.png")) == "a_png.json"
  {
    TwoDotsFields();
    ObjectNameExample();
  }

  /** An uploaded jpg or png is found again by its own name and type, and the
      reply carries exactly the text the OCR gave, or "" when it failed. */
  lemma UploadedImageFound(store: Store, imagePath: string, ocr: Option<string>,
                           pageNumber: Option<int>, startTime: Option<string>)
    requires "images" in store
    requires ImageExtension(imagePath) in {"jpg", "png"}
    ensures var name, ext := ImageFileName(imagePath), ImageExtension(imagePath);
      MinioDatabase.Lookup(UploadImageMetadataToMinio(store, imagePath, ocr), "images", name, ext, pageNumber, startTime) ==
        Ok(Some(MinioDatabase.ImageFound(name, ext, ExtractTextFromImage(ocr))))
  {
  }
}
