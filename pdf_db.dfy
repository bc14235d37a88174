/** `extract_text_from_pdf` and `upload_pdf_metadata_to_minio` in
    minio_database/pdf_text_extractor_and_uploader.py: pages whose extracted
    text is empty are dropped, the others are numbered from 1 by their place
    in the file, and the document goes to the "pdfs" bucket under the name
    the lookup builds for type "pdf". The text PyPDF2 extracts from each page
    is given as input. */
module PdfDatabase {
  import opened Results
  import opened Text
  import opened Metadata
  import MinioDatabase

  /** The pages the loop keeps, for the extracted texts in page order. */
  function KeptPages(texts: seq<string>): (pages: seq<Page>)
    ensures |pages| <= |texts|
  {
    if texts == [] then []
    else
      var n := |texts| - 1;
      KeptPages(texts[..n]) + (if texts[n] != "" then [Page(n + 1, texts[n])] else [])
  }

  /** Lines 20-31. */
  method ExtractTextFromPdf(texts: seq<string>) returns (pagesContent: seq<Page>)
    ensures pagesContent == KeptPages(texts)
  {
    pagesContent := [];
    for pageNum := 0 to |texts|
      invariant pagesContent == KeptPages(texts[..pageNum])
    {
      assert texts[..pageNum + 1][..pageNum] == texts[..pageNum];
      var pageText := texts[pageNum];
      if pageText != "" {
        pagesContent := pagesContent + [Page(pageNum + 1, pageText)];
      }
    }
    assert texts[..|texts|] == texts;
  }

  /** Every kept page carries a number in 1..n, the non-empty text of the
      page with that number, and the numbers strictly increase. */
  lemma {:induction false} KeptPagesNumbered(texts: seq<string>)
    ensures forall i | 0 <= i < |KeptPages(texts)| ::
      1 <= KeptPages(texts)[i].pageNumber <= |texts| && KeptPages(texts)[i].content != "" &&
      KeptPages(texts)[i].content == texts[KeptPages(texts)[i].pageNumber - 1]
    ensures forall j, k | 0 <= j < k < |KeptPages(texts)| ::
      KeptPages(texts)[j].pageNumber < KeptPages(texts)[k].pageNumber
    decreases |texts|
  {
    if texts != [] {
      var n := |texts| - 1;
      KeptPagesNumbered(texts[..n]);
      assert forall p | 0 <= p < n :: texts[..n][p] == texts[p];
      var earlier := KeptPages(texts[..n]);
      if texts[n] != "" {
        var pages := earlier + [Page(n + 1, texts[n])];
        assert KeptPages(texts) == pages;
        forall i | 0 <= i < |pages|
          ensures 1 <= pages[i].pageNumber <= |texts| && pages[i].content == texts[pages[i].pageNumber - 1]
          ensures pages[i].content != "" && (i < |earlier| ==> pages[i].pageNumber <= n)
        {
          if i < |earlier| {
            assert pages[i] == earlier[i];
            assert texts[..n][earlier[i].pageNumber - 1] == texts[earlier[i].pageNumber - 1];
          }
        }
      } else {
        assert KeptPages(texts) == earlier;
      }
    }
  }

  /** Every page with non-empty text is kept. */
  lemma {:induction false} KeptPagesComplete(texts: seq<string>)
    ensures forall p | 0 <= p < |texts| && texts[p] != "" :: Page(p + 1, texts[p]) in KeptPages(texts)
    decreases |texts|
  {
    if texts != [] {
      var n := |texts| - 1;
      KeptPagesComplete(texts[..n]);
      assert forall p | 0 <= p < n :: texts[..n][p] == texts[p];
    }
  }

  /** `os.path.basename(pdf_path)[:-4]` (line 44). */
  function PdfFileName(pdfPath: string): (r: string)
    ensures EndsWith(Basename(pdfPath), ".pdf") ==> r + ".pdf" == Basename(pdfPath)
  {
    var b := Basename(pdfPath);
    var r := SliceTo(b, -4);
    assert |b| >= 4 ==> b == b[..|b| - 4] + b[|b| - 4..];
    r
  }

  /** The document of lines 47-51. */
  function PdfDocument(pdfPath: string, texts: seq<string>): Document {
    Document(PdfFileName(pdfPath), "pdf", Some(KeptPages(texts)), None, None)
  }

  /** Lines 41-55: the document stored under `<file_name>_pdf.json`. */
  function UploadPdfMetadataToMinio(store: Store, pdfPath: string, texts: seq<string>): (after: Store)
    ensures "pdfs" in store ==>
      "pdfs" in after && ObjectName(PdfFileName(pdfPath), "pdf") in after["pdfs"] &&
      after["pdfs"][ObjectName(PdfFileName(pdfPath), "pdf")] == PdfDocument(pdfPath, texts)
    ensures "pdfs" !in store ==> after == store
  {
    var pdfMetadata := PdfDocument(pdfPath, texts);
    Upload(store, "pdfs", ObjectName(pdfMetadata.fileName, pdfMetadata.fileType), pdfMetadata)
  }

  /** Asking for page n of an uploaded pdf by its file name gives that page's
      text in the lookup's found reply, and the not-found reply for pages
      that are empty or out of range. */
  lemma UploadedPageFound(store: Store, pdfPath: string, texts: seq<string>, n: int)
    requires "pdfs" in store
    ensures var name := PdfFileName(pdfPath);
      MinioDatabase.Lookup(UploadPdfMetadataToMinio(store, pdfPath, texts), "pdfs", name, "pdf", Some(n), None) ==
        if 1 <= n <= |texts| && texts[n - 1] != "" then Ok(Some(MinioDatabase.PdfFound(name, n, texts[n - 1])))
        else Ok(Some(MinioDatabase.PdfMissing(name, n)))
  {
    var name := PdfFileName(pdfPath);
    var after: Store := UploadPdfMetadataToMinio(store, pdfPath, texts);
    var pages := KeptPages(texts);
    assert after["pdfs"][ObjectName(name, "pdf")].pages == Some(pages);
    MinioDatabase.PdfAnswer(after, "pdfs", name, pages, n);
    KeptPageFirst(texts, n);
  }

  /** Page n is the first kept page with its number exactly when its text is
      non-empty. */
  lemma KeptPageFirst(texts: seq<string>, n: int)
    ensures var r := FirstPage(KeptPages(texts), n);
      if 1 <= n <= |texts| && texts[n - 1] != "" then r.Some? && KeptPages(texts)[r.value].content == texts[n - 1]
      else r.None?
  {
    var pages := KeptPages(texts);
    KeptPagesNumbered(texts);
    if 1 <= n <= |texts| && texts[n - 1] != "" {
      KeptPagesComplete(texts);
      var i :| 0 <= i < |pages| && pages[i] == Page(n, texts[n - 1]);
      FirstPageUnique(pages, i);
    }
  }
}
