# Time-bucketed transcripts and their consumers, in Dafny

This project models the local logic of a multimedia transcription and
retrieval pipeline. Its centre is the transcript writer of
`Parser/dev/cloud/audio.py`:

- `transcribe_audio` walks the recognizer's results, alternatives and words.
  It groups the words into 10-second windows and writes `start-end` and
  text line pairs, with an `end-EOF` pair after every alternative.
- `split_audio` cuts an audio length into numbered slices.
- `transcript_all` walks a directory and keeps a running offset.
- `clear_directory` empties a directory.

The trial copy in `speech_test/speech_to_text_trial.py` is the same writer
without an offset.

The model also covers the code that reads or stores those records:

- the two-lines-per-record reader of `AudioTextUploader`;
- the `start end entity` writer and `_group_by_name` of `VideoParser`;
- the object names and lookups of both MinIO helpers;
- the PDF and image uploaders;
- the processed-set loop of `InputParsing.parse_files`;
- the routing, metadata filter, merge, stable sort and top-k cut of `MilvusDB`.

There is one module per source file, plus `Results` (Option, Result and the
Python errors that can occur) and `Text` (Python's `split`, `join`, `strip`,
`str(int)`, `basename` and `os.path.join` on `seq<char>`).

Code that changes state step by step is imperative Dafny:

- the bucketing loops;
- the segment loop;
- the directory walk;
- the directory clearing;
- the stride-2 reader;
- the group-by;
- the PDF page loop;
- the linear-search lookup;
- `parse_files`;
- `insert` and `similarity_search`.

Each of those methods is proved equal to a specification function. The
properties are proved about that function as lemmas. Vendor results are
parameters:

- the recognizer's words;
- audio lengths in milliseconds;
- page texts and OCR text;
- embeddings and search hits;
- the directory listing and the guessed MIME type;
- the translation call;
- float parsing and formatting.

Behaviour worth knowing, as the code has it:

- An out-of-window word closes the current window and advances by exactly one
  width, so empty windows are written. A word far ahead is therefore not
  placed in its true window (`Transcript.LoneWord`).
- A word earlier than the current window is not rejected. It is written into
  a later record (`Transcript.EarlyWordMisplaced`).
- The closing record is labelled with `current_end`. It is written after
  every alternative, and `chunk` is not cleared afterwards
  (`Transcript.ThreeSpacedWords`, `Transcript.ChunkSurvivesTail`).
- `transcript_all` passes its running offset as the second positional
  argument of `transcribe_audio`. That argument is `dst_dir`, so `start_offset`
  stays 0 (`DirectoryWalk.OffsetsAccumulate`). `transcribe_audio` hands that
  integer to `os.path.exists`, which treats it as a file descriptor, and to
  `os.makedirs`, which raises `TypeError` for it. The walk therefore ends at
  the first file whose offset is not an open descriptor; with only the
  standard streams open that is the second matching file
  (`DirectoryWalk.StandardStreamsOnly`).
- `clear_directory` on a path that names a plain file passes the existence
  test and then fails in `os.listdir` with `NotADirectoryError`
  (`Cleanup.NotADirectory`).

The default arguments are constants: `Segmenter.DefaultSegmentDuration` (59
seconds), `DirectoryWalk.DefaultFormat` (`mp3`) and `Milvus.DefaultTopK` (5).

## Model

| member | source | states |
|---|---|---|
| Transcript.TranscribeAudio | Parser/dev/cloud/audio.py:50-75 | The lines written are the lines of `Records(response, offset)`, the records of the bucketing state machine. In that machine an out-of-window word writes the current window with the offset added, moves one width on and restarts the chunk with that word. After each alternative a non-empty chunk is written as an `end-EOF` record and is kept. |
| Transcript.WriteAlternative | Parser/dev/cloud/audio.py:58-75 | One alternative's loop leaves the variables and records as `AfterAlternative` says, and the lines equal `Lines` of the records. |
| Transcript.LinesAt | Parser/dev/cloud/audio.py:63-65 | Line 2k of the file is record k's header and line 2k+1 is its words joined by single spaces. |
| Transcript.RecordsPlaced | Parser/dev/cloud/audio.py:50-52 | The k-th `start-end` record is the window from 10k+O to 10k+10+O. Consecutive windows abut and are exactly 10 wide. An `end-EOF` record written after k windows says 10k+10+O. |
| Transcript.NoWordsNoRecords | Parser/dev/cloud/audio.py:56-75 | A response without words writes nothing. |
| Transcript.AfterWordsKeepsWords | Parser/dev/cloud/audio.py:58-69 | The words already written plus the chunk grow by exactly the new words, in arrival order. |
| Transcript.SingleAlternativeWords | Parser/dev/cloud/audio.py:64-74 | For one result with one alternative, the words of all records, in file order, are the recognized words, each once. |
| Transcript.LoneWord | Parser/dev/cloud/audio.py:62-75 | A single word inside the first window gives one record `10+O-EOF`. Otherwise it gives an empty `O-10+O` record and then `20+O-EOF` holding the word, wherever the word lies. |
| Transcript.ThreeSpacedWords | Parser/dev/cloud/audio.py:62-74 | Words at 2, 12 and 22 seconds give the file `0-10`, `a`, `10-20`, `b`, `30-EOF`, `c`. |
| Transcript.ChunkSurvivesTail | Parser/dev/cloud/audio.py:72-75 | The chunk written as the `EOF` record of one result is written again in the next window record. |
| Transcript.EarlyWordMisplaced | Parser/dev/cloud/audio.py:62-69 | A word earlier than the current window is not placed in its own window. It lands in the closing record. |
| SpeechTrial.TranscribeTrial | speech_test/speech_to_text_trial.py:35-58 | The trial writes exactly the lines the cloud writer writes with `start_offset = 0`. |
| SpeechTrial.WriteWords | speech_test/speech_to_text_trial.py:42-53 | The word loop of the trial leaves the state `AfterWords` gives with offset 0. |
| SpeechTrial.OffsetShifts | Parser/dev/cloud/audio.py:63-73 | The records written with offset O are the records written with offset 0, every number moved by O and the words unchanged. |
| SpeechTrial.ShiftAt | Parser/dev/cloud/audio.py:63-73 | Record k of the moved file is record k of the unmoved file, moved. |
| Segmenter.SplitAudio | Parser/dev/cloud/audio.py:80-96 | A step of 0 raises `ValueError` and a negative step exports nothing. Otherwise the exported slices are `Segments(length, d)`: one per `i` in `range(0, length // 1000, d)`, slice k covering `[(k-1)·d·1000, min(k·d·1000, length))`. |
| Segmenter.CountMeetsTotal | Parser/dev/cloud/audio.py:90 | The number of slices is the least n with n·d covering the whole seconds. |
| Segmenter.SegmentBounds | Parser/dev/cloud/audio.py:91-95 | Slice k is numbered k+1. It starts before it ends, lies within the audio and lasts at most d seconds. |
| Segmenter.SegmentsAbut | Parser/dev/cloud/audio.py:91-92 | The first slice starts at 0 and each slice ends where the next one starts. |
| Segmenter.ShortAudioNoSegments | Parser/dev/cloud/audio.py:83 | Audio shorter than one second gives no slices. |
| Segmenter.LastSegmentEnd | Parser/dev/cloud/audio.py:90-92 | The last slice ends at the audio's end, except when d divides the whole seconds. Then it ends at the last whole second and the sub-second tail is dropped. |
| Segmenter.SegmentNamesDistinct | Parser/dev/cloud/audio.py:95 | Different slice numbers give different `<name>_segment_<k>.mp3` names. |
| DirectoryWalk.TranscriptAll | Parser/dev/cloud/audio.py:14-29 | The loops attempt `Calls(Visited(walk, format), lengthMs)`: one call per matching file in walk order, each passed the sum of the earlier files' whole seconds. The calls that run are those before the first whose `dst_dir` is not an open descriptor. That call raises `TypeError` and ends the walk; without one, no error is raised. |
| DirectoryWalk.FirstClosed | Parser/dev/cloud/audio.py:28-29 | The index found is the first call whose `dst_dir` is not open: every earlier one is open, and the one there, if any, is not. |
| DirectoryWalk.StandardStreamsOnly | Parser/dev/cloud/audio.py:14-29 | With only descriptors 0-2 open and a first matching file of at least 3 seconds, exactly one file is transcribed before `TypeError`. |
| DirectoryWalk.TranscriptDirectory | Parser/dev/cloud/audio.py:17-21 | One directory's files extend the visited paths by its matching files, and the calls and offset follow. When a call's `dst_dir` is not open, it stops at that matching file, with the paths before it visited. |
| DirectoryWalk.CallAt | Parser/dev/cloud/audio.py:20 | Call k transcribes path k and passes the seconds of paths 0..k-1. |
| DirectoryWalk.OffsetsAccumulate | Parser/dev/cloud/audio.py:15-21 | The offset before file k is the sum of `len // 1000` over the earlier visited files. It never decreases, it is bound to `dst_dir`, and `start_offset` is 0. |
| DirectoryWalk.VisitedExactly | Parser/dev/cloud/audio.py:16-18 | Every visited path ends with the format, and every file of the walk that ends with it is visited. |
| Cleanup.FileSystem.ClearDirectory | Parser/dev/cloud/audio.py:101-113 | A missing path is reported and nothing changes. A path naming a plain file fails with `NotADirectoryError` and nothing changes. Otherwise one removal per entry is made, in listing order, the directory is left empty and its plain files are gone. |
| Cleanup.OutcomeOf | Parser/dev/cloud/audio.py:103-113 | A path that is neither a directory nor a file is missing. A plain file fails with `NotADirectoryError`. A directory gives its removals. |
| Cleanup.ClearedFiles | Parser/dev/cloud/audio.py:108-113 | No file path is added, and every plain file of the cleared directory is removed. |
| Cleanup.NotADirectory | Parser/dev/cloud/audio.py:103-107 | For a path that is not a directory, the outcome is `NotADirectoryError` when it names a plain file and "missing" otherwise. Nothing changes in either case. |
| Cleanup.Cleared | Parser/dev/cloud/audio.py:103-113 | The directory is kept and emptied, and no other directory changes. |
| Cleanup.RemovalsAt | Parser/dev/cloud/audio.py:108-113 | The k-th removal is of `os.path.join(directory, entry k)`. It is a tree removal exactly when that entry is a folder. |
| Cleanup.ClearTwice | Parser/dev/cloud/audio.py:101-113 | Clearing twice is clearing once, for directories and files alike. The second call on a directory removes nothing, and on any other path it ends as the first did. |
| AudioUpload.ParseAudioTranscription | my-project/src/my_project/audio_text_uploader.py:9-37 | The stride-2 loop returns `Parse(lines)`. |
| AudioUpload.ReadEntry | my-project/src/my_project/audio_text_uploader.py:26-35 | The entry read at line i is `EntryReader(lines)(i)`, and its only failure is `ValueError`. |
| AudioUpload.ParseShape | my-project/src/my_project/audio_text_uploader.py:24-35 | Parsing succeeds exactly when every header line 2k splits into two fields. It then gives ceil(n/2) records in file order. Record k holds the two halves of stripped line 2k and the stripped next line, or "" when there is none. |
| AudioUpload.CueAtFields | my-project/src/my_project/audio_text_uploader.py:26-30 | The entry at line i is built from the two `-` fields of stripped line i. Any other number of fields is `ValueError`. |
| AudioUpload.ParseError | my-project/src/my_project/audio_text_uploader.py:30 | The only error parsing can raise is `ValueError`. |
| AudioUpload.NegativeStartFails | my-project/src/my_project/audio_text_uploader.py:30 | A file whose first header has a negative start, written by the transcript writer, raises `ValueError`. |
| AudioUpload.TailHeaderReadBack | my-project/src/my_project/audio_text_uploader.py:30 | An `end-EOF` header reads back as the end and `EOF`. |
| AudioUpload.ParseLines | my-project/src/my_project/audio_text_uploader.py:24-35 | Reading the lines of well-formed records gives one cue per record: its two header fields and its joined words. |
| AudioUpload.RoundTrip | my-project/src/my_project/audio_text_uploader.py:24-35 | Reading the file the transcript writer produces recovers each record's header fields and text. This holds for a non-negative offset and for words that are non-empty and contain no whitespace. |
| AudioUpload.AudioFileName | my-project/src/my_project/audio_text_uploader.py:46 | The file name is the basename up to its first `.`, or the whole basename when there is none. |
| AudioUpload.UploadAudioMetadata | my-project/src/my_project/audio_text_uploader.py:46-60 | A parse error is passed on. Otherwise the `audio` bucket holds `<name>_audio.json`, with the name, type `audio` and the parsed transcription. |
| AudioUpload.AudioNotQueryable | my-project/src/my_project/audio_text_uploader.py:54-59 | The stored `_audio.json` object has another key than every `_mp3.json` lookup. Looking it up with type `audio` returns the invalid-request message. |
| Metadata.ObjectName | minio_database/upload_to_minio.py:90 | The key starts with the file name and ends with `_<type>.json`. |
| Metadata.ObjectNameInjective | minio_database/upload_to_minio.py:90 | For one type, different file names give different keys. |
| Metadata.ObjectNameCollision | minio_database/upload_to_minio.py:90 | Across types keys can collide: `x_png` as `jpg` and `x` as `png_jpg` share a key. |
| Metadata.Upload | minio_database/upload_to_minio.py:53-70 | An upload to an existing bucket stores the document under its key. An upload to a missing bucket changes nothing, and other buckets are kept. |
| Metadata.FirstPage | minio_database/upload_to_minio.py:100-101 | Gives the index of the first page with the number, or none when no page has it. |
| Metadata.FirstCue | minio_database/upload_to_minio.py:107-108 | Gives the index of the first entry whose start time is the string, or none when no entry has it. |
| Metadata.FirstPageUnique | minio_database/pdf_text_extractor_and_uploader.py:23-29 | With strictly increasing page numbers, page i is the first match for its own number. |
| MinioDatabase.GetMetadataFromMinio | minio_database/upload_to_minio.py:76-122 | The search loops with early return give `Lookup`. |
| MinioDatabase.PdfLookup | minio_database/upload_to_minio.py:99-103 | For pdf with a page number, the first matching page's content is returned in the `Content of` message. With no match the result is `Page N not found in <name>.pdf`. |
| MinioDatabase.Mp3Lookup | minio_database/upload_to_minio.py:106-110 | For mp3 with a start time, the first entry with an equal start time is returned. Otherwise the not-found message is. |
| MinioDatabase.InvalidRequests | minio_database/upload_to_minio.py:90-122 | A missing object gives `None`. Each of the following gives `Invalid file type or missing parameters.`: pdf without a page number, mp3 without a start time, and any type other than pdf, mp3, jpg or png. |
| MinioDatabase.EnsureBucket | minio_database/upload_to_minio.py:134-139 | A missing bucket is created, and existing buckets are kept unchanged. |
| MinioDatabase.UploadThenLookup | minio_database/upload_to_minio.py:142-148 | Storing a document under its own name and type, then looking it up by them, reads that document. |
| MinioDatabase.UploadedDocumentsFound | minio_database/upload_to_minio.py:125-148 | After `upload_metadata_only`, each of the three documents is found in its bucket. |
| MinioClient.NextPageContent | my-project/src/my_project/minio_client.py:51 | `next(...)` gives the content of the first page with the number, else the default. |
| MinioClient.NextCueContent | my-project/src/my_project/minio_client.py:53 | `next(...)` gives the content of the first entry with the start time, else the default. |
| MinioClient.PdfLookup | my-project/src/my_project/minio_client.py:50-51 | pdf returns the first matching page's content, else `Page N not found`. |
| MinioClient.Mp3Lookup | my-project/src/my_project/minio_client.py:52-53 | mp3 returns the first equal-start-time entry's content, else `Start time T not found`. |
| MinioClient.OtherRequests | my-project/src/my_project/minio_client.py:54-56 | jpg/png give `Image metadata: ` plus the content, or a `KeyError` without content. Any other request gives `Invalid type or parameters.` |
| MinioClient.SameSelection | my-project/src/my_project/minio_client.py:46-56 | The client and the database lookup miss and fail together. pdf and mp3 requests select the same element, and only the returned string differs. |
| MinioClient.UploadThenLookup | my-project/src/my_project/minio_client.py:46 | Storing a document under its own name and type, then looking it up through the client, reads that document. |
| PdfDatabase.ExtractTextFromPdf | minio_database/pdf_text_extractor_and_uploader.py:23-29 | The page loop returns `KeptPages(texts)`. |
| PdfDatabase.KeptPagesNumbered | minio_database/pdf_text_extractor_and_uploader.py:23-29 | Page numbers are index+1, lie in 1..n and strictly increase. Each kept page's content is that page's non-empty text. |
| PdfDatabase.KeptPagesComplete | minio_database/pdf_text_extractor_and_uploader.py:27-29 | Every page with non-empty text is kept. |
| PdfDatabase.PdfFileName | minio_database/pdf_text_extractor_and_uploader.py:44 | The name is the basename without its last four characters. For a `.pdf` basename, the name plus `.pdf` is the basename. |
| PdfDatabase.UploadPdfMetadataToMinio | minio_database/pdf_text_extractor_and_uploader.py:41-55 | The `pdfs` bucket holds `<name>_pdf.json` with the name, type `pdf` and the kept pages. |
| PdfDatabase.UploadedPageFound | minio_database/pdf_text_extractor_and_uploader.py:47-55 | After the upload, looking up page n finds its text exactly when page n exists and its text is non-empty. Otherwise the page is reported not found. |
| PdfClient.AllPagesNumbered | my-project/src/my_project/pdf_text_extractor_uploader.py:13-14 | There is one record per page, numbered 1..n in order. Empty pages are kept, and dropping them gives the other extractor's pages. |
| PdfClient.UploadPdfMetadata | my-project/src/my_project/pdf_text_extractor_uploader.py:17-26 | The `pdfs` bucket holds `<name>_pdf.json` with every page. |
| PdfClient.UploadedPageFound | my-project/src/my_project/pdf_text_extractor_uploader.py:17-26 | Through the client lookup, page n gives its text, even an empty one, exactly when n is in 1..count. |
| ImageDatabase.ExtractTextFromImage | minio_database/image_text_extractor_and_uploader.py:20-37 | The OCR text, or "" when extraction raised. |
| ImageDatabase.NameAndExtension | minio_database/image_text_extractor_and_uploader.py:50-51 | Name and type contain no `.`. A basename without `.` gives the whole basename for both. |
| ImageDatabase.TwoDotsFields | minio_database/image_text_extractor_and_uploader.py:50-51 | For `a.b.png` the name is `a` (first field) and the type is `png` (last field). |
| ImageDatabase.TwoDotsObjectName | minio_database/image_text_extractor_and_uploader.py:61 | `a.b.png` is stored as `a_png.json`. |
| ImageDatabase.ImageDocument | minio_database/image_text_extractor_and_uploader.py:54-58 | The record has only a file name, a type and the content. |
| ImageDatabase.UploadImageMetadataToMinio | minio_database/image_text_extractor_and_uploader.py:47-62 | The `images` bucket holds `<name>_<type>.json` with that record. |
| ImageDatabase.UploadedImageFound | minio_database/image_text_extractor_and_uploader.py:54-62 | For a jpg or png, the lookup after the upload returns the image message with the extracted content. |
| ImageClient.UploadImageMetadata | my-project/src/my_project/image_text_extractor_uploader.py:17-27 | A basename without `.` raises `IndexError`, and an OCR failure propagates. |
| ImageClient.UploadFields | my-project/src/my_project/image_text_extractor_uploader.py:18-26 | The name is the first dot-field and the type the second. The record is stored as `<first>_<second>.json`. |
| ImageClient.TwoDotsExample | my-project/src/my_project/image_text_extractor_uploader.py:19 | `a.b.png` gets type `b` and key `a_b.json`. |
| ImageClient.AgreesWithDatabase | my-project/src/my_project/image_text_extractor_uploader.py:18-26 | With exactly one `.`, this uploader stores what the other image uploader stores. |
| ImageClient.UploadedImageFound | my-project/src/my_project/image_text_extractor_uploader.py:17-27 | A jpg/png image uploaded by the client is found by the client lookup with its content. |
| VideoObjects.WriteAnnotations | Parser/dev/cloud/video.py:93-95 | The writer loop gives one `start end entity` line per annotation, in order. |
| VideoObjects.ParseAll | Parser/dev/cloud/video.py:116-119 | Reading gives one entry per line, or `ValueError`. |
| VideoObjects.ParseFailsLater | Parser/dev/cloud/video.py:117-119 | Once a line fails to unpack or parse, the whole read fails with `ValueError`. |
| VideoObjects.GroupByName | Parser/dev/cloud/video.py:113-127 | The rewrite gives `Rewrite(lines)`: `ValueError` from the first bad line, else the grouped text. |
| VideoObjects.FormatGroups | Parser/dev/cloud/video.py:121-124 | One output line per name, in name order, listing that name's intervals. |
| VideoObjects.NamesAppear | Parser/dev/cloud/video.py:114-119 | Every entry's name is a key of the groups, and every key comes from an entry. |
| VideoObjects.NamesDistinct | Parser/dev/cloud/video.py:122-124 | No name gets two output lines. |
| VideoObjects.NamesInFirstAppearanceOrder | Parser/dev/cloud/video.py:114-124 | Output lines are ordered by each name's first appearance in the input. |
| VideoObjects.IntervalsNonEmpty | Parser/dev/cloud/video.py:119 | Every listed name has at least one interval. |
| VideoObjects.IntervalsPartition | Parser/dev/cloud/video.py:117-123 | All groups together hold exactly as many intervals as there are input lines. |
| VideoObjects.OutputLineAt | Parser/dev/cloud/video.py:123-124 | Output line k is `name s-e s-e …` with that name's intervals in input order. |
| VideoObjects.Content | Parser/dev/cloud/video.py:127 | The rewritten file ends with a line break. |
| VideoObjects.WrittenLineReadBack | Parser/dev/cloud/video.py:95 | A written line reads back as its translated entity with its interval. The entity is everything after the second space and may hold spaces. It must be non-empty, end in a non-space and contain neither `\n` nor `\r`. |
| VideoObjects.LineBreakInside | Parser/dev/cloud/video.py:95 | A `\n` or `\r` in a translated entity lands inside the written line, before its final `\n`. |
| VideoObjects.WrittenFileReadBack | Parser/dev/cloud/video.py:93-95 | A written file whose entities are all readable reads back annotation by annotation. |
| VideoObjects.WrittenFileGrouped | Parser/dev/cloud/video.py:93-97 | Grouping a written file whose entities are all readable puts one interval per annotation under its translated entity. |
| VideoObjects.BlankEntityFails | Parser/dev/cloud/video.py:118 | A line whose translated entity is blank has fewer than three fields after `strip`, and its read raises `ValueError`. |
| InputParsing.FileParser.constructor | my-project/src/my_project/input_parsing.py:5-14 | Starts with the directory, no processed files and no uploads. |
| InputParsing.FileParser.ParseFiles | my-project/src/my_project/input_parsing.py:43-82 | The `while` loop leaves the processed set and uploads that `Run` gives. It reports whether it stopped and after how many rounds. |
| InputParsing.FileParser.ProcessFiles | my-project/src/my_project/input_parsing.py:59-82 | One round handles the unprocessed files in listing order, as `DispatchAll` says. |
| InputParsing.FileParser.DispatchFile | my-project/src/my_project/input_parsing.py:60-82 | One file is handled as `Dispatch` says. |
| InputParsing.FileParser.UploadEach | my-project/src/my_project/input_parsing.py:74-75 | Uploads every dict of a split, in order, and nothing else changes. |
| InputParsing.UnprocessedMembers | my-project/src/my_project/input_parsing.py:52 | The unprocessed files are the listed files not yet in the processed set. |
| InputParsing.DispatchUploads | my-project/src/my_project/input_parsing.py:67-79 | A pdf or image uploads exactly one parsed dict. Audio or video uploads the split's dicts in order. Any other file changes nothing. |
| InputParsing.DispatchAdds | my-project/src/my_project/input_parsing.py:63-82 | The processed set and uploads only grow. A file is added exactly when it is new and was dispatched as pdf/image or audio/video. |
| InputParsing.RunGrows | my-project/src/my_project/input_parsing.py:48-82 | Over all rounds the processed set and uploads only grow. |
| InputParsing.RunExit | my-project/src/my_project/input_parsing.py:48-57 | The loop stops only when every file of its last listing is already processed. |
| InputParsing.StuckOnUnknownFile | my-project/src/my_project/input_parsing.py:63-79 | A file of undetermined or unrecognised type is never added. While it stays listed, the loop never stops. |
| InputParsing.ProcessedIgnored | my-project/src/my_project/input_parsing.py:52 | An already processed file in the listing makes no difference to a round. |
| Milvus.MilvusDB.constructor | my-project/src/my_project/milvus_module.py:10-33 | The dimension is that of the sample text's embedding, and the collections start empty. |
| Milvus.MilvusDB.Insert | my-project/src/my_project/milvus_module.py:52-71 | `insert` stores and fails as `InsertAll` says. Items are stored one by one up to the first failure. |
| Milvus.MilvusDB.SimilaritySearch | my-project/src/my_project/milvus_module.py:73-101 | The result is the first `top_k` of the stable distance sort of all collections' hits. |
| Milvus.MetadataKept | my-project/src/my_project/milvus_module.py:63 | The metadata is the item without `type`, `file` and `text`, every other key and value kept. |
| Milvus.PreparedRow | my-project/src/my_project/milvus_module.py:54-69 | A stored row goes to the collection its `type` maps to, with an embedding of the expected dimension, the item's `file` and the filtered metadata. |
| Milvus.PrepareErrors | my-project/src/my_project/milvus_module.py:54-60 | An unknown type raises `KeyError` of that type. A wrong embedding length raises `ValueError`. |
| Milvus.InsertSucceeds | my-project/src/my_project/milvus_module.py:53-71 | `insert` raises nothing exactly when every item prepares. |
| Milvus.InsertStopsAt | my-project/src/my_project/milvus_module.py:53-71 | A raised error is that of the first item that fails, and every earlier item prepares. |
| Milvus.FirstFailure | my-project/src/my_project/milvus_module.py:53-60 | The index found is the first item that does not prepare: every earlier item prepares, and the one there, if any, does not. |
| Milvus.InsertStores | my-project/src/my_project/milvus_module.py:52-71 | After `insert`, every collection holds its old rows followed by `RowsFor` the items before the first failure: those items' rows routed to it, in order. The error is that failure's, or none. |
| Milvus.InsertOnlyRouted | my-project/src/my_project/milvus_module.py:54-71 | Collections no type maps to are unchanged. |
| Milvus.SortSorted | my-project/src/my_project/milvus_module.py:99 | The sort orders by non-decreasing distance. |
| Milvus.SortPermutes | my-project/src/my_project/milvus_module.py:99 | The sort is a permutation of its input. |
| Milvus.SortStable | my-project/src/my_project/milvus_module.py:99 | Results at equal distance keep their order, so ties keep collection order. |
| Milvus.GatheredInOrder | my-project/src/my_project/milvus_module.py:77-95 | The hits are merged document, audio, image, each tagged with its collection. |
| Milvus.SearchBound | my-project/src/my_project/milvus_module.py:101 | At most `top_k` results, and never more than all hits. |
| Milvus.SearchNearestFirst | my-project/src/my_project/milvus_module.py:99-101 | The results are in non-decreasing distance, and none is farther than a hit left out. |
| Milvus.SearchFromHits | my-project/src/my_project/milvus_module.py:89-101 | Every result is one of the collections' hits. |
| Text.SliceTo | my-project/src/my_project/milvus_module.py:101 | Python's `[:k]` gives a prefix: k elements for 0 <= k <= n, n when k > n, and `n+k` (at least 0) for negative k. |
| Milvus.PageLineIndex | my-project/src/my_project/milvus_module.py:133-134 | The page is at least 1, the line is in 1..40, and `page*40 + line - 41` is the line's index. |
| Milvus.IndexPageLine | my-project/src/my_project/milvus_module.py:152 | Every page ≥ 1 and line 1..40 come from exactly the index line 152 computes. |
| Milvus.BookLineStored | my-project/src/my_project/milvus_module.py:129-136 | A book line is routed to the document collection with only `page` and `line` as metadata, and they lead back to its index. |

## Left out

- Vendor calls (speech, video, vision, translation, OCR, PDF reading, Milvus, MinIO `put_object`/`get_object`, embedding models) are left out because they are external services. Their results are parameters or abstract functions.
- JSON encoding and decoding are left out. Metadata is a Dafny datatype, and a stored object is the document itself.
- The file system is left out. Written files are sequences of lines. `os.walk` and `os.listdir` order, `mimetypes.guess_type`, audio lengths and `os.makedirs` are inputs or not modelled.
- Cleanup.FileSystem.ClearDirectory: directories are a map from path to entries, with folders holding their own entries, and plain files a set of paths. A sub-folder that is also a key of the map keeps that key, and the files under a removed sub-folder keep their paths. The only caller passes a directory (`Parser/dev/cloud/audio.py:121`).
- The printed messages of `clear_directory`, `parse_files` and the uploaders are left out, because they are console output only.
- Floating point is left out. Recognizer start times are whole seconds; a floor does not change any window test, because the bounds are integers. Video times are reals with abstract `float()` and printing, and Milvus distances are reals.
- DirectoryWalk.TranscriptAll: the open file descriptors are a parameter. The rest of `transcribe_audio` is the transcript writer, which is modelled on its own, and only its calls are recorded. An offset too large for a C `int` is not considered specially.
- Segmenter.SplitAudio: the decode and export are not modelled. The slices are returned; their export path is `Segmenter.ExportPath`.
- InputParsing.FileParser.ParseFiles: `while True` may run forever, so the model takes a round bound and reports whether the loop stopped within it. The listing of each round is a parameter.
- AudioUpload.RoundTrip: holds only for words that are non-empty and contain no whitespace. For other words `strip` changes the text the reader sees.
- AudioUpload.ParseAudioTranscription: `readlines` is modelled by lines that keep their line break, and `strip` removes the characters Python's `str.isspace` accepts.
- PdfDatabase.ExtractTextFromPdf: a page that yields `None` is given as "", which the filter drops the same way.
- MinioDatabase.GetMetadataFromMinio: an `S3Error` is modelled as a missing bucket or object (`None`). The record fields a JSON object may lack are `KeyError`s.
- The pymilvus collection lifecycle is left out: creating, loading, releasing and dropping collections, and a missing collection.
- Milvus.PrepareErrors: item values are strings or integers only. The `KeyError` for an integer `type` carries its decimal text, not the integer itself.
- VideoObjects.WrittenLineReadBack: reading with universal newlines is not modelled, because the file is given as its lines. An entity holding `\n` or `\r` is excluded through `Readable`, since its line would read back as two (`VideoObjects.LineBreakInside`). The same holds for `WrittenFileReadBack` and `WrittenFileGrouped`.
- The collection loop of `annotate_video` (`Parser/dev/cloud/video.py:81-91`) is left out. The annotations are input.
- `VideoParser.transcript_video_speech` and `_mp4_to_mp3` are left out.
