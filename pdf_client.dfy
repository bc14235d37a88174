/** `PDFTextExtractorUploader` in
    my-project/src/my_project/pdf_text_extractor_uploader.py: one record per
    page, empty pages included, numbered 1..n, stored in the "pdfs" bucket
    under `<file_name>_pdf.json`. */
module PdfClient {
  import opened Results
  import opened Text
  import opened Metadata
  import PdfDatabase
  import MinioClient

  /** The list comprehension of lines 13-14. */
  function AllPages(texts: seq<string>): (pages: seq<Page>)
    ensures |pages| == |texts|
  {
    seq(|texts|, k requires 0 <= k < |texts| => Page(k + 1, texts[k]))
  }

  /** Keeps the pages with non-empty text, in order. */
  function NonEmpty(pages: seq<Page>): seq<Page> {
    if pages == [] then []
    else NonEmpty(pages[..|pages| - 1]) + (if pages[|pages| - 1].content != "" then [pages[|pages| - 1]] else [])
  }

  /** The pages are numbered 1..n in order and carry each page's text, and
      dropping the empty ones gives what the database extractor keeps. */
  lemma {:induction false} AllPagesNumbered(texts: seq<string>)
    ensures forall k | 0 <= k < |texts| :: AllPages(texts)[k].pageNumber == k + 1 && AllPages(texts)[k].content == texts[k]
    ensures NonEmpty(AllPages(texts)) == PdfDatabase.KeptPages(texts)
    decreases |texts|
  {
    if texts != [] {
      var n := |texts| - 1;
      AllPagesNumbered(texts[..n]);
      assert AllPages(texts)[..n] == AllPages(texts[..n]);
    }
  }

  /** The document of lines 20-24; the name is the basename without its last
      four characters, as in the database extractor. */
  function PdfDocument(pdfPath: string, texts: seq<string>): Document {
    Document(PdfDatabase.PdfFileName(pdfPath), "pdf", Some(AllPages(texts)), None, None)
  }

  /** Lines 17-26. */
  function UploadPdfMetadata(store: Store, pdfPath: string, texts: seq<string>): (after: Store)
    ensures "pdfs" in store ==>
      "pdfs" in after && ObjectName(PdfDatabase.PdfFileName(pdfPath), "pdf") in after["pdfs"] &&
      after["pdfs"][ObjectName(PdfDatabase.PdfFileName(pdfPath), "pdf")] == PdfDocument(pdfPath, texts)
    ensures "pdfs" !in store ==> after == store
  {
    var fileNameWithoutExtension := PdfDatabase.PdfFileName(pdfPath);
    var objectName := fileNameWithoutExtension + "_pdf.json";
    assert objectName == ObjectName(fileNameWithoutExtension, "pdf");
    Upload(store, "pdfs", objectName, PdfDocument(pdfPath, texts))
  }

  /** The client lookup of page n of an uploaded pdf gives that page's text,
      even when it is empty, and the not-found reply out of range. */
  lemma UploadedPageFound(store: Store, pdfPath: string, texts: seq<string>, n: int)
    requires "pdfs" in store
    ensures var name := PdfDatabase.PdfFileName(pdfPath);
      MinioClient.GetMetadataFromMinio(UploadPdfMetadata(store, pdfPath, texts), "pdfs", name, "pdf", Some(n), None) ==
        if 1 <= n <= |texts| then Ok(Some(texts[n - 1])) else Ok(Some(MinioClient.PageMissing(n)))
  {
    var pages := AllPages(texts);
    AllPagesNumbered(texts);
    if 1 <= n <= |texts| {
      FirstPageAt(pages, n, n - 1);
    } else {
      assert FirstPage(pages, n) == None;
    }
  }
}
