# biodiversity-index-extraction in Dafny

A model of the four Python scripts of the biodiversity-index-extraction pipeline, with proofs
about it. The scripts turn a tree of PDFs into text files and then analyse that text.

- `classify_convert2txt.py` (module `Classify`, in `classify.dfy`).
  - It labels each PDF "searchable" or "image" by a three-threshold OR rule, or returns
    "error: …".
  - Scanned PDFs go through OCR. Every page is rendered at 300 dpi and recognised into a
    one-page PDF, and the pages are merged in order into one document.
  - The merged document is re-opened to validate it, then its text is written to a `.txt`
    file under the output root.
  - `process_pdfs` is the batch loop: it filters `.pdf` names, derives the output and temp
    paths, and routes each file. The batch is the class `Pipeline`. Its state is the disk:
    text outputs, temp OCR files and created directories.
  - Each method is proved against a per-file function `FileEffect`. Whole runs are proved
    against `Replay` of those effects.
- `remove_ref.py` (module `RemoveRef`).
  - It finds the first reference-section header.
  - It counts reference-like lines in a window of at most 49 lines after the header, with the
    early-stop rule. It tracks the longest consecutive run.
  - It collects clusters: maximal runs of at least three reference-like lines.
  - It combines these with the fixed boolean rule, then tallies a folder of files.
  - Each loop is a method whose result is tied to a specification function, and the
    properties are proved about that function.
- `index_extraction.py` (module `IndexExtraction`).
  - It tokenises lowered text into word runs. Each `index`/`indices` token plus up to three
    tokens before it becomes a phrase.
  - A file without phrases gets the sentinel "None". An unreadable file gets an
    "Error reading …" phrase.
  - The phrases of a file are joined with "; ", split again and normalised (trim, strip
    non-word runs, drop one leading stopword).
  - The result is inverted into a phrase → documents index and summarised by descending
    document count.
- `reverse_matching.py` (module `ReverseMatching`).
  - It normalises each file's text to its lowercase word tokens joined by single spaces.
  - For each known key, it adds the document when the first non-missing pattern search hits.
  - A file that raises is skipped. The keys it matched before the failure stay in the index.
  - The index is summarised like the one above.

Shared modules:

- `Outcomes`: `Option` and `Result`.
- `Text`: Python's `str.strip`, `lower`, `\b\w+\b` tokens, `join`/`split` and lexicographic
  `sorted`, restricted to ASCII.
- `Paths`: pathlib's `suffix`, `stem` and `with_suffix`.
- `Summary`:
  - the `defaultdict(set)` as an insertion-ordered `Grouping` and the class `SetIndex` that
    updates it in place;
  - the stable `sorted(..., key=-len)` as `SortByCount`;
  - the summary rows.

The name of each text file follows the code exactly. `process_pdfs` calls `with_suffix("")`
and then `with_suffix(".txt")`, so two suffixes are dropped: "a.b.pdf" becomes "a.txt"
(`Paths.DoubleSuffixExample`).

## Model

| member | source | states |
|---|---|---|
| Text.Lower | index_extraction.py:15 | lowering keeps the length, maps each character by `LowerChar`, and leaves no upper-case letter |
| Text.Strip | index_extraction.py:15 | `strip()` never lengthens its argument |
| Text.StripTrims | index_extraction.py:15 | the stripped text is a slice of the input, everything cut off before and after it is whitespace, and it has no whitespace at either end; it is empty exactly when the input is all whitespace |
| Text.StripKeeps | index_extraction.py:15 | text with no whitespace at either end is left unchanged by `strip()` |
| Text.Words | index_extraction.py:33 | every token found by `\b\w+\b` is a non-empty run of word characters |
| Text.WordsOfJoin | reverse_matching.py:16-17 | tokenising word tokens joined by single spaces gives back exactly those tokens |
| Text.WordsOfWord | index_extraction.py:33 | a single run of word characters is found as exactly one token, itself |
| Text.WordsSplitAt | index_extraction.py:33 | a non-word character separates tokens: the tokens of `a + c + b` are those of `a` followed by those of `b` |
| Text.Find | index_extraction.py:58 | the first occurrence of the separator, or -1 when there is none |
| Text.Split | index_extraction.py:58 | `split` gives at least one piece and no piece contains the separator |
| Text.JoinSplit | index_extraction.py:58 | joining the pieces of a split with the separator restores the text |
| Text.SplitJoin | index_extraction.py:51-58 | splitting a join of pieces that do not contain the separator's first character restores the pieces |
| Text.LexLeTotal | index_extraction.py:51 | the string order used by `sorted` is total |
| Text.LexLeAntisymmetric | index_extraction.py:51 | the string order is antisymmetric |
| Text.LexLeTransitive | index_extraction.py:51 | the string order is transitive |
| Text.LeastExists | index_extraction.py:51 | every non-empty set of strings has a least element |
| Text.LeastUnique | index_extraction.py:51 | that least element is unique |
| Text.SortedElements | index_extraction.py:51 | `sorted(set)` lists every element exactly once, in ascending order |
| Paths.RFind | classify_convert2txt.py:69 | the last position of the character, or -1 when it does not occur |
| Paths.Suffix | classify_convert2txt.py:69 | the suffix is non-empty iff the last dot is neither the first nor the last character, and then it is the name from that dot on, with no other dot |
| Paths.WithSuffixRoundTrip | classify_convert2txt.py:57-69 | after `with_suffix(s)` with a valid suffix `s`, the suffix is `s` and the stem is the original stem |
| Paths.PathWithSuffix | classify_convert2txt.py:57 | `with_suffix` on a path rewrites only the last component |
| Paths.TxtName | classify_convert2txt.py:69 | the text file's name ends in ".txt" after a non-empty prefix of the PDF's name |
| Paths.TxtNameOfPlainPdf | classify_convert2txt.py:69 | "<stem>.pdf" without other dots is written as "<stem>.txt" |
| Paths.DoubleSuffixExample | classify_convert2txt.py:69 | "a.b.pdf" is written as "a.txt" |
| Paths.UpperCaseExample | classify_convert2txt.py:66-69 | "x.PDF" is selected by the case-insensitive test and written as "x.txt" |
| Paths.DotPdfExample | classify_convert2txt.py:66-69 | ".pdf" is selected, has no suffix, and is written as ".pdf.txt" |
| Summary.AddAllAppend | index_extraction.py:57-63 | adding two batches of pairs in turn is adding their concatenation |
| Summary.ConcatMember | index_extraction.py:57-63 | a pair is in the concatenated runs iff it is in one of them |
| Summary.AddPairValid | index_extraction.py:55-63 | adding a pair keeps the index well formed (distinct keys in first-insertion order, each with a set) and keeps every old key |
| Summary.AddAllValid | index_extraction.py:55-63 | adding a batch of pairs keeps the index well formed and keeps every old key |
| Summary.AddPairMembers | index_extraction.py:63 | after `index[k].add(d)` the keys are the old keys plus k, and the (key, document) memberships are the old ones plus (k, d) |
| Summary.AddAllMembers | index_extraction.py:63 | after a batch of additions the keys and the memberships are the old ones plus exactly those of the batch |
| Summary.AddPairIdempotent | reverse_matching.py:25 | adding the same document under the same key twice changes nothing |
| Summary.SetIndex.constructor | index_extraction.py:55 | a new `defaultdict(set)` is empty |
| Summary.SetIndex.Add | index_extraction.py:63 | `index[key].add(doc)` updates the state as `AddPair` |
| Summary.Items | index_extraction.py:72 | `items()` follows insertion order, lists no key twice, lists exactly the keys of the dictionary, and pairs each with its set |
| Summary.WithCount | index_extraction.py:72 | selecting the entries with a given count keeps exactly those entries |
| Summary.WithCountConcat | index_extraction.py:72 | selecting by count distributes over concatenation |
| Summary.WithCountTwice | index_extraction.py:72 | selecting by one count and then another gives nothing unless the counts agree |
| Summary.WithCountMultiplicity | index_extraction.py:72 | selecting by count keeps each entry of that count exactly as often as it occurs |
| Summary.WithCountAbsent | index_extraction.py:72 | selecting a count no entry has gives nothing |
| Summary.MaxCount | index_extraction.py:72 | an upper bound on every entry's count |
| Summary.BucketsDescending | index_extraction.py:72 | the concatenated buckets for counts c, c-1, …, 0 are in non-increasing count order, all at most c |
| Summary.ConcatDescending | index_extraction.py:72 | a bucket of count c followed by a descending run of smaller counts is descending |
| Summary.SortByCount | index_extraction.py:72 | `sorted(..., key=lambda x: -len(x[1]))` yields non-increasing counts |
| Summary.BucketsWithCount | index_extraction.py:72 | the buckets down from c hold, for each count up to c, exactly the entries of that count in input order |
| Summary.SortByCountStable | index_extraction.py:72 | the sort is stable: entries with equal counts keep their original relative order |
| Summary.SortByCountPermutes | index_extraction.py:72 | the sort is a permutation of its input |
| Summary.RowDocumentsRoundTrip | index_extraction.py:70 | splitting a row's documents on "; " gives the sorted documents, as many as the mention count |
| Summary.Summarize | index_extraction.py:66-73 | one row per entry, with non-increasing mention counts |
| Summary.SummaryRowsAreItems | index_extraction.py:66-73 | every entry has its row, and every row comes from an entry |
| Classify.CountImagePages | classify_convert2txt.py:26 | when no `has_images` call fails, the number of pages with images is at most the page count; it is 0 iff no page has images and equals the page count iff every page has one |
| Classify.CountImagePagesFails | classify_convert2txt.py:26 | the count fails iff `has_images` fails on some page, and then with the cause of the first such page |
| Classify.RatioAtMostOne | classify_convert2txt.py:27 | `image_pages / num_pages`, or 0 for no pages, lies in [0, 1] |
| Classify.ClassifyPdf | classify_convert2txt.py:16-35 | an error label with three `None` metrics when extraction, opening or an image test fails; otherwise the metrics use the stripped text length and the label is "image" iff any one threshold is violated, else "searchable" |
| Classify.LabelKinds | classify_convert2txt.py:29-35 | the label is "image", "searchable" or an "error: " label; it is an error label exactly when the metrics are `None` |
| Classify.ZeroPagesIsImage | classify_convert2txt.py:25-31 | a readable zero-page PDF has both ratios 0 and is labelled "image" under the defaults |
| Classify.MergeOkIffEveryPage | classify_convert2txt.py:40-51 | the OCR merge succeeds iff every page is recognised and opens |
| Classify.MergeKeepsPageOrder | classify_convert2txt.py:42-45 | when every page yields one recognised page, merged page i comes from image i |
| Classify.OcrOutputOk | classify_convert2txt.py:39-51 | the merge succeeds iff rendering succeeds and every page is recognised, and OCR succeeds iff the merge and then saving the merged document succeed |
| Classify.Kept | classify_convert2txt.py:56-58 | a completed write leaves the whole text; a write failing part-way leaves a prefix of it as long as what was written |
| Classify.MergedPdf.constructor | classify_convert2txt.py:41 | `fitz.open()` starts an empty document |
| Classify.MergedPdf.InsertPdf | classify_convert2txt.py:45 | `insert_pdf` appends the pages of the inserted document |
| Classify.OutputStem | classify_convert2txt.py:69 | the output path without suffix is a non-empty path with a non-empty last component |
| Classify.TxtPath | classify_convert2txt.py:57-69 | the text is written to the output root, then the PDF's relative directory, then `TxtName` of its name |
| Classify.DispatchWrites | classify_convert2txt.py:53-90 | per classification, a text file is written iff the route is a direct or an OCR extraction or a write that failed part-way, and at the ".txt" form of the output path |
| Classify.WriteOnlyOnSuccess | classify_convert2txt.py:53-90 | a file is written iff the route is a successful extraction or a write that failed part-way, and it goes to root / relative dir / `TxtName` |
| Classify.SearchableUsesOriginal | classify_convert2txt.py:53-77 | a searchable PDF makes no temp file; its ".txt" file is written iff extraction succeeds and the file opens, with a prefix of the original's text, and the route is a direct extraction iff the whole text was stored |
| Classify.ImageUsesOcrOutputOnly | classify_convert2txt.py:53-90 | a scanned PDF saves the OCR output iff OCR succeeds; text is written, from the OCR output only, iff it also re-opens, extracts and the file opens, and it is the whole text on an OCR extraction |
| Classify.ErrorIsSkipped | classify_convert2txt.py:92-93 | a PDF whose extraction, opening or image test fails is routed to the error case and writes nothing |
| Classify.NonPdfIgnored | classify_convert2txt.py:66 | a file whose lowered name does not end in ".pdf" has no effect at all |
| Classify.ReplayOverrides | classify_convert2txt.py:57-58 | a run overwrites the disk with the last write to each path, and adds temp files and directories |
| Classify.RunTwiceIsRunOnce | classify_convert2txt.py:62-93 | running the batch twice over the same input leaves the same disk as running it once |
| Classify.LastWriteWins | classify_convert2txt.py:57-58 | a path holds the text of the last write to it |
| Classify.UnwrittenUnchanged | classify_convert2txt.py:57-58 | a path no file writes is not among the outputs of a run |
| Classify.Pipeline.constructor | classify_convert2txt.py:13-14 | creates the temp OCR and output directories and keeps the existing disk |
| Classify.Pipeline.OcrPdf | classify_convert2txt.py:37-51 | returns True iff rendering, recognition, merging and saving succeed, and only then stores the saved document at the OCR path |
| Classify.Pipeline.ConvertPdfToText | classify_convert2txt.py:53-60 | when extraction succeeds and the file opens, the ".txt" path holds the text kept by the write; otherwise nothing changes |
| Classify.Pipeline.ProcessFile | classify_convert2txt.py:66-93 | the per-file route and disk change are those of `FileEffect` |
| Classify.Pipeline.ProcessPdfs | classify_convert2txt.py:62-93 | one route per file, and the final disk is the replay of every file's effect in walk order |
| RemoveRef.SplitLines | remove_ref.py:12 | `split('\n')` gives newline-free lines whose join is the text |
| RemoveRef.HeaderIndex | remove_ref.py:25-36 | the index of the first header line, or -1 exactly when no line is a header |
| RemoveRef.FindHeader | remove_ref.py:25-36 | the header loop finds `HeaderIndex`, with `header_found` iff the index is not -1 |
| RemoveRef.CountMarked | remove_ref.py:77-78 | the reference count of a window is at most its size |
| RemoveRef.RunBefore | remove_ref.py:79-82 | the current run ends at the window's end and is no longer than the count |
| RemoveRef.LongestRun | remove_ref.py:79-80 | `max_consecutive` lies between the current run and the count |
| RemoveRef.RunCoversRun | remove_ref.py:79 | a marked run ending at the window's end is covered by the current run |
| RemoveRef.LongestRunIsLongest | remove_ref.py:79-80 | every run of reference lines in the window is at most `max_consecutive` |
| RemoveRef.LongestRunStart | remove_ref.py:79-80 | some run in the window is exactly `max_consecutive` long |
| RemoveRef.MarksOf | remove_ref.py:52-88 | the per-line marks are well formed and there is one per line |
| RemoveRef.StreakIsThreePlainLines | remove_ref.py:84-90 | the stop streak holds iff three plain (non-blank, non-reference) lines start there |
| RemoveRef.ScanEnd | remove_ref.py:48-90 | the scan ends inside the window |
| RemoveRef.ScanEndIsFirstStop | remove_ref.py:81-90 | the scan ends at the first line where the early-stop rule fires, or at the window's end |
| RemoveRef.NonRefStreak | remove_ref.py:84-88 | `non_ref_streak` counts the plain lines among the next three |
| RemoveRef.CountReferenceEntriesAfterHeader | remove_ref.py:39-92 | (0, 0) without a header; otherwise the count and longest run of reference lines up to the stop point, with `max_consecutive <= ref_count <= 49` |
| RemoveRef.OpenRun | remove_ref.py:100-125 | the open cluster is the run of marked lines just before the scanned prefix's end |
| RemoveRef.ClosedBounds | remove_ref.py:104-128 | every closed cluster is at least 3, and closed plus open sizes fit in the lines scanned |
| RemoveRef.ClustersBounds | remove_ref.py:95-130 | every cluster is at least 3 and their sum is at most the number of lines |
| RemoveRef.ClosedGrows | remove_ref.py:100-125 | the closed clusters only grow as the scan proceeds |
| RemoveRef.RunIsOpen | remove_ref.py:100-121 | a run of marked lines that starts after an unmarked line is the open cluster at its end |
| RemoveRef.MaximalRunIsCluster | remove_ref.py:95-130 | every maximal run of at least 3 reference lines is a recorded cluster |
| RemoveRef.ClosedAreMaximalRuns | remove_ref.py:100-128 | each closed cluster is a maximal run, at its own start |
| RemoveRef.AppendRun | remove_ref.py:105-128 | appending a maximal run keeps every recorded cluster a maximal run |
| RemoveRef.ClustersAreMaximalRuns | remove_ref.py:95-130 | every recorded cluster is a maximal run of reference lines |
| RemoveRef.FindReferenceClusters | remove_ref.py:95-130 | the loop returns `Clusters` |
| RemoveRef.Largest | remove_ref.py:134 | `largest_cluster` bounds every cluster, is 0 for none, and is one of them otherwise |
| RemoveRef.SumAtLeast | remove_ref.py:139 | n clusters of at least m lines hold at least n·m lines |
| RemoveRef.ThreeClustersSuffice | remove_ref.py:136-140 | three clusters (at least 9 lines) always make the file likely to have references |
| RemoveRef.Analyse | remove_ref.py:132-151 | a readable file's report is an analysis under its name |
| RemoveRef.ReportFields | remove_ref.py:132-151 | each report field as the source defines it: header iff some line is a header, 0 ≤ max ≤ refs ≤ 49, zeros without a header, clusters, largest, total ≤ lines, and the likely rule |
| RemoveRef.Checked | remove_ref.py:153-157 | a report is an error report iff reading the file failed, and carries the file's name |
| RemoveRef.AnalyseText | remove_ref.py:12-151 | the analysis of a read text is `Analyse` |
| RemoveRef.CheckForReferences | remove_ref.py:4-157 | `check_for_references` returns `Checked` |
| RemoveRef.Flagged | remove_ref.py:181-182 | the flagged reports are exactly the analyses likely to have references |
| RemoveRef.Errors | remove_ref.py:196 | the error count is at most the number of results |
| RemoveRef.TallyAddsUp | remove_ref.py:202 | total − with-references − errors is the number of analyses not flagged |
| RemoveRef.CheckAll | remove_ref.py:177-182 | one report per file in order, and the flagged list is `Flagged` of them |
| RemoveRef.AnalyzeReferenceSections | remove_ref.py:159-208 | no files gives the "none found" outcome; otherwise the reports, the flagged ones and a tally whose without-references figure is total − with − errors |
| IndexExtraction.WordsOfLowerText | index_extraction.py:33 | tokens of lowered text are lowercase word runs |
| IndexExtraction.Tokens | index_extraction.py:33 | every token is a non-empty lowercase word run |
| IndexExtraction.FindPhrases | index_extraction.py:36-40 | the keyword loop collects exactly `Phrases` |
| IndexExtraction.JoinTokensShape | index_extraction.py:39 | tokens joined by spaces are phrase characters, begin with a word character and end with the last token after a space |
| IndexExtraction.WindowIsJoin | index_extraction.py:36-40 | a phrase is the join of tokens `max(i-3,0)..i`, begins with a word character and ends with the keyword |
| IndexExtraction.WindowShape | index_extraction.py:36-40 | a phrase has 1 to 4 tokens, is non-empty lowercase word characters and spaces, has no ';' and is not "None" |
| IndexExtraction.PhraseHasNoSeparator | index_extraction.py:44-51 | lowercase word characters and spaces contain no ';' and are not "None" |
| IndexExtraction.WindowWords | index_extraction.py:36-40 | re-tokenising a phrase gives back its window of tokens |
| IndexExtraction.FirstAlnum | index_extraction.py:16 | the first word character from a position, skipping non-word ones |
| IndexExtraction.EndAlnum | index_extraction.py:16 | the end of the text without its trailing non-word run |
| IndexExtraction.StopwordLength | index_extraction.py:17 | a leading stopword followed by whitespace, or 0 when none of the stopwords leads |
| IndexExtraction.StopwordCut | index_extraction.py:17 | the cut is after the stopword and its whitespace, or 0 when none leads |
| IndexExtraction.LowerSpec | index_extraction.py:15 | lowering leaves no upper case and keeps whether a word character is present |
| IndexExtraction.StripHasAlnum | index_extraction.py:15 | stripping keeps whether a word character is present |
| IndexExtraction.TrimNonWordSpec | index_extraction.py:16 | trimming non-word runs gives empty iff there is no word character, else starts and ends with one |
| IndexExtraction.DropStopwordSpec | index_extraction.py:17 | dropping a stopword never empties a trimmed phrase and keeps its last character |
| IndexExtraction.NormalizeSpec | index_extraction.py:8-18 | a normalised phrase has no upper case, is empty iff the phrase has no word character, and otherwise ends in a word character |
| IndexExtraction.NormalizeDropsOneStopword | index_extraction.py:17 | "the of index" normalises to "of index": only one stopword goes |
| IndexExtraction.NormalizeOfPhrase | index_extraction.py:15-17 | on a trimmed lowercase phrase, normalising is trimming non-word runs, then dropping a stopword |
| IndexExtraction.NormalizeKeepsKeyword | index_extraction.py:8-18 | normalising a phrase that ends in word characters is a suffix of it that keeps that ending |
| IndexExtraction.NormalizedWindowEndsWithKeyword | index_extraction.py:36-63 | a normalised phrase is a suffix of the phrase that still ends with its keyword |
| IndexExtraction.FileResult | index_extraction.py:23-52 | the per-file body builds `ResultOf` |
| IndexExtraction.PhrasesEmpty | index_extraction.py:36-46 | a text has no phrase iff it has no keyword token |
| IndexExtraction.PhraseIsWindow | index_extraction.py:36-40 | every phrase is the window of some keyword token, with no ';' and not "None" |
| IndexExtraction.FoundSentinel | index_extraction.py:41-46 | the phrase set is never empty; it holds "None" iff the file was read and had no keyword, and then nothing else |
| IndexExtraction.FoundElements | index_extraction.py:36-42 | every other phrase is a keyword window, or the error phrase of an unreadable file |
| IndexExtraction.FoundHasNoSeparator | index_extraction.py:51 | no phrase contains ';' (given a ';'-free error phrase) |
| IndexExtraction.ResultRoundTrip | index_extraction.py:51-58 | splitting `indices_found` on "; " gives the sorted phrase set |
| IndexExtraction.FilenameIsName | index_extraction.py:25-50 | the recorded filename `stem + ".txt"` is the file's own name |
| IndexExtraction.DotTxtExample | index_extraction.py:25-50 | a file called ".txt" is recorded as ".txt.txt" |
| IndexExtraction.ExtractPhrases | index_extraction.py:20-52 | one result row per walked file, in walk order, each `ResultOf` that file |
| IndexExtraction.IndexOf | index_extraction.py:55-63 | the inverted index is well formed |
| IndexExtraction.PhrasePairsMember | index_extraction.py:60-63 | a row adds (k, d) iff d is its document and some kept piece normalises to k |
| IndexExtraction.PairsStep | index_extraction.py:57-63 | one more row adds its own pairs |
| IndexExtraction.IndexMember | index_extraction.py:57-63 | d is filed under k iff some row names d and gives k |
| IndexExtraction.AddPieces | index_extraction.py:60-63 | the inner loop adds each kept piece's normalised form under the row's document |
| IndexExtraction.BuildIndex | index_extraction.py:55-63 | the outer loop builds `IndexOf` the rows |
| IndexExtraction.RowGivesOfFile | index_extraction.py:48-63 | a file's row gives key k iff one of the file's own phrases normalises to k |
| IndexExtraction.ReadableGives | index_extraction.py:36-40 | a readable file gives k iff some keyword window normalises to k |
| IndexExtraction.IndexOfFiles | index_extraction.py:20-63 | `index_to_files[k]` holds d iff some file named d has a phrase normalising to k |
| IndexExtraction.EndsWithKeywordOf | index_extraction.py:37 | a text ending in a keyword ends with "index" or "indices" |
| IndexExtraction.WindowKeyEnds | index_extraction.py:36-63 | every normalised window ends with "index" or "indices" |
| IndexExtraction.GivenKeyIsWindow | index_extraction.py:36-63 | a key given by a readable file is the normalised window of one of its keyword tokens |
| IndexExtraction.KeyOfReadableFile | index_extraction.py:36-63 | a key given by a readable file ends with a keyword |
| IndexExtraction.KeysEndWithKeyword | index_extraction.py:20-63 | when every file is readable, every key of the index ends with "index" or "indices" |
| IndexExtraction.ExtractIndices | index_extraction.py:20-73 | rows are `ResultOf` each file, and the summary is `Summarize` of the index items |
| ReverseMatching.NormalizedTextTokens | reverse_matching.py:13-17 | the normalised text re-tokenises to the file's tokens, and normalising it again changes nothing |
| ReverseMatching.SearchPatterns | reverse_matching.py:23-26 | the pattern loop's outcome is `FirstOutcome` |
| ReverseMatching.FirstOutcomeSpec | reverse_matching.py:23-26 | the outcome is a miss iff every pattern misses; otherwise it is that of the first pattern that does not miss |
| ReverseMatching.FoundWithoutRaise | reverse_matching.py:23-26 | when no search raises, the key is matched iff some pattern hits |
| ReverseMatching.MatchedKeysMember | reverse_matching.py:22-29 | a key is added iff its first non-missing pattern hits and no earlier key raised |
| ReverseMatching.RaiseKeepsEarlierKeys | reverse_matching.py:22-29 | a raise keeps exactly the keys added before it |
| ReverseMatching.MatchedKeysDistinct | reverse_matching.py:22-26 | with distinct keys, each is added at most once per document |
| ReverseMatching.KeyPairsMember | reverse_matching.py:25 | a pair is added iff its key matched and it names the document |
| ReverseMatching.AddKeyStep | reverse_matching.py:25 | one more key adds its pair |
| ReverseMatching.MatchTurn | reverse_matching.py:22-29 | the loop's turn at a key leaves the keys added as `MatchedKeys` says |
| ReverseMatching.MatchDocument | reverse_matching.py:22-29 | the key loop adds the document under exactly the matched keys |
| ReverseMatching.Matched | reverse_matching.py:8-29 | the index built from all files is well formed |
| ReverseMatching.WalkStep | reverse_matching.py:10-29 | one more file adds its own pairs |
| ReverseMatching.MatchFile | reverse_matching.py:11-29 | one file's body adds its matched keys under its relative path |
| ReverseMatching.ReverseMatch | reverse_matching.py:8-29 | the whole loop builds `Matched` |
| ReverseMatching.MatchedMember | reverse_matching.py:10-29 | d is under key k iff some file's path is d and that file matched k |
| ReverseMatching.ReadableFileKeys | reverse_matching.py:11-26 | a readable file with no raising search matches k iff some pattern of k hits its normalised text |
| ReverseMatching.SummaryRows | reverse_matching.py:31-37 | the summary loop produces `Summarize` of the index items |
| ReverseMatching.RunReverseMatching | reverse_matching.py:8-37 | the whole script's summary is `Summarize(Items(Matched))` |

## Left out

- PDF handling, rendering and OCR (pdfminer, PyMuPDF, pdf2image, pytesseract) are the fields
  of a `Library` value: total functions of the bytes they read. Their internals are not
  modelled.
- Regular expressions are not modelled as regular expressions.
  - The header, entry and cluster patterns of `remove_ref.py` are line predicates in
    `Patterns`. They are applied to the same strings the code applies them to: stripped and
    lowered lines for headers, stripped lines for entries and clusters, raw lines for the
    streak test.
  - The searches of `reverse_matching.py` are a `Searcher` that hits, misses or raises.
  - `known_indices_dict` comes from indices.py, which is not part of this model. It is the
    parameter `known`.
- `\w`, `\b`, `str.lower` and `str.strip` follow ASCII rules, plus the code points Python
  counts as whitespace. Unicode word characters and case mappings are not modelled.
- Directory walks (`os.walk`, `rglob`) are sequences of files in walk order. Reading a file as
  UTF-8 either gives its text or fails with a cause. `Path.relative_to` is the stored
  relative directory.
- Floating point: `text_per_page` and `image_ratio` are exact reals. Double rounding is not
  modelled.
- Console output (`print`) and the pandas DataFrames are not modelled. `Route` and `Outcome`
  carry the data the messages report.
- `close()` calls and exceptions the code does not handle, such as `mkdir` failing, are not
  modelled. The failures `convert_pdf_to_text` catches are modelled as a `Store` outcome of
  the library's `writeText`. The output file may fail to open, and then it is left as it
  was. The write may also fail part-way, and then the file keeps only the text written
  before the failure.
- A failing `merged_pdf.save` makes `ocr_pdf` return False and is modelled as leaving no
  temp file; a partly written OCR file is not modelled.
- The unreachable `if i >= len(lines)` check and the unused `text_lower` of `remove_ref.py`
  are not modelled.
- transfer.py (the remote-folder mirroring utility) is not part of this model.
- IndexExtraction.ResultRoundTrip needs an error phrase without ';'. An exception message can
  contain "; ", and then the split of `indices_found` cuts it apart.
- IndexExtraction.RowGivesOfFile has the same requirement, for the same reason.
- IndexExtraction.IndexOfFiles has the same requirement, for the same reason.
- IndexExtraction.KeysEndWithKeyword assumes every file is readable: the error phrase of an
  unreadable file is normalised and filed as a key like any phrase.
- ReverseMatching.ReadableFileKeys assumes that no search raises.
  `ReverseMatching.MatchedKeysMember` covers the general case.
- Summary.RowDocumentsRoundTrip needs document names without ';'.
