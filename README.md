# Sanskrit RAG system: a Dafny model of its core

This project models the deterministic core of a retrieval-augmented question
answering system for Sanskrit texts. The system loads `.txt` documents and
derives their metadata. It packs each document's paragraphs into chunks and
indexes the chunks' embeddings in a flat L2 index. Each query retrieves the
nearest chunks and answers either with a language model or with a fixed
template. Every query is logged, and statistics are computed over the log.

The model follows the program's classes:

- `DocumentLoader.Loader` holds the loaded documents (`document_loader.dfy`).
- `VectorStore.SanskritVectorStore` holds the embedding model, the index and the chunks (`vector_store.dfy`).
- `LlmGenerator.SanskritLLMGenerator` holds the model handles (`llm_generator.dfy`).
- `PerformanceLog.PerformanceLogger` holds the entries and the log file (`logger.dfy`).
- `RagPipeline.SanskritRAGPipeline` ties them together (`rag_pipeline.dfy`).

`strings.dfy` models the Python `str` operations the code relies on:
`strip`, `split`, `split()`, `join`, `endswith` and slicing. `paths.dfy`
models `os.path.join` and `os.makedirs` of a path with no directory part.

The loops that build the system's state or results are methods with loop
invariants. Each one is proved equal to a specification function:

- `load_documents` against `LoadAll`.
- `chunk_documents`, over the documents against `ChunkAll`, and with its string buffer and counter over one document's paragraphs against the greedy packer `PackAll`/`Pack`.
- The result loop of `search` against `Assemble`.

The properties are proved about those functions. The appending loop of
`_create_simple_response` only concatenates strings, and is the recursive
function `Excerpts`. The list comprehensions are functions too.

The following are parameters rather than parts of the model:

- The directory listing and file reads: `Option<seq<DirEntry>>`.
- The embedding model: `encode`.
- The FAISS search: `nearest`, which returns a row of `(idx, distance)` pairs or an error.
- The language model's sampler: `sample`.
- The clocks and timestamps: `Clock`.
- How each save of the log file goes: a `Write` per save. A save writes the whole list, fails before `open` (leaving the file alone), or fails after `open` emptied the file (leaving it cut short).
- The cache files: a `map` from path to embeddings.

Exceptions become `Result` values. Python floats become `real`.

Two behaviours of the code are easy to misread:

- The `else filename` branch of the title (src/document_loader.py:45) is
  dead, because `str.split('\n')` never returns an empty list. Empty or
  whitespace-only content gets the title `""` and one line (`BlankContent`).
- If saving the success entry raises, the `except` branch appends a failure
  entry after it and saves again, so the list grows by two. That second save
  is independent of the first. If it succeeds, `query` returns the error
  envelope with the first save's exception. If it raises too, that exception
  escapes `query` (`FinishUnwritten`, `FinishRaises`).

## Model

| member | source | states |
|---|---|---|
| DocumentLoader.FirstLine | src/document_loader.py:44-45 | the first part of `split('\n')` is the text up to the first newline |
| DocumentLoader.ExtractMetadata | src/document_loader.py:42-55 | source is the filename, length is the unstripped content's length, the line count is one more than the number of `'\n'` in the stripped content, title is the collapsed first line of the stripped content |
| DocumentLoader.TitleIsFirstLine | src/document_loader.py:44-48 | the title has the same words as the first line of the stripped content, in order, joined by single spaces with none at the ends, and loses no other character |
| DocumentLoader.BlankContent | src/document_loader.py:44-54 | blank content gives title "" (never the filename) and one line |
| DocumentLoader.LoadEntry | src/document_loader.py:24-34 | an entry gives a document exactly when its name ends in ".txt" and its read succeeded |
| DocumentLoader.LoadAllAppend | src/document_loader.py:23-37 | entries contribute independently: loading a + b is loading a then b, so one failed read skips only its own file |
| DocumentLoader.LoadAllSound | src/document_loader.py:23-34 | every loaded document comes from a ".txt" entry whose read succeeded, with its name, content and metadata |
| DocumentLoader.LoadAllComplete | src/document_loader.py:23-37 | every ".txt" entry whose read succeeded is loaded |
| DocumentLoader.KeptClean | src/document_loader.py:71-74 | the paragraphs kept are non-empty and stripped |
| DocumentLoader.PackStepInvariant | src/document_loader.py:76-88 | one step of the greedy packer keeps its invariant: order preserved, every chunk fits, every closed chunk was full |
| DocumentLoader.PackAllInvariant | src/document_loader.py:71-88 | the invariant holds after any number of paragraphs |
| DocumentLoader.PackSpec | src/document_loader.py:71-98 | chunks flatten to exactly the paragraphs in order, none empty, each within the size or a single paragraph, each but the last closed only because the next paragraph did not fit |
| DocumentLoader.ChunkBounds | src/document_loader.py:69-98 | per document, chunk ids run 0, 1, 2, ...; metadata is the document's; content is non-empty, stripped, and within chunk_size unless it is one paragraph |
| DocumentLoader.ChunksCoverParagraphs | src/document_loader.py:66-98 | the chunks joined by blank lines equal the kept paragraphs joined by blank lines; no chunk exactly when no non-blank paragraph |
| DocumentLoader.BufferIsText | src/document_loader.py:86-88 | `current_chunk` is the open chunk's text plus a trailing blank line |
| DocumentLoader.StripBuffer | src/document_loader.py:91-93 | stripping `current_chunk` gives the open chunk's text; the buffer is empty exactly when the open chunk is |
| DocumentLoader.FlushTest | src/document_loader.py:77 | the source's flush test on the buffer equals "the open chunk plus the paragraph would exceed the size" |
| DocumentLoader.PackDocument | src/document_loader.py:63-98 | the buffer-and-counter loop for one document yields exactly the packer's chunks |
| DocumentLoader.Loader.constructor | src/document_loader.py:11-13 | a new loader holds no documents |
| DocumentLoader.Loader.LoadDocuments | src/document_loader.py:15-40 | a missing directory returns [] and keeps the documents; otherwise the listing's documents are appended to those held (a second call duplicates them) and all are returned |
| DocumentLoader.Loader.ChunkDocuments | src/document_loader.py:57-101 | the chunks of every held document, document by document |
| Strings.Strip | src/document_loader.py:44 | the result has no whitespace at either end and is no longer than the input |
| Strings.StripSplits | src/document_loader.py:44 | every string is whitespace, its stripped form, whitespace |
| Strings.StripExact | src/document_loader.py:44 | strip removes exactly the whitespace around a stripped core |
| Strings.SplitOnJoin | src/document_loader.py:66 | joining the parts of `split(sep)` with `sep` gives back the string; no part contains `sep`; each part but the last ends where the next occurrence of `sep` begins |
| Strings.SplitOnCuts | src/document_loader.py:66 | the first part (and, when there are more, the first part and `sep`) begins the string, no part contains `sep`, and no occurrence of `sep` starts inside a part or straddles its end |
| Strings.SplitOnCount | src/document_loader.py:44-54 | splitting on one character gives one part more than the character occurs |
| Strings.WordsVisible | src/document_loader.py:48 | `split()` keeps every non-whitespace character, in order (WordsCons and WordsOfSpace say where it cuts) |
| Strings.WordsOfSpace | src/document_loader.py:48 | a string of whitespace has no words |
| Strings.WordsCons | src/document_loader.py:48 | after leading whitespace, a maximal run of non-whitespace is the first word, and the rest are the words of what follows |
| Strings.WordsOfJoin | src/document_loader.py:48 | words without whitespace joined by single spaces split back into the same words |
| Strings.JoinWordsCollapsed | src/document_loader.py:48 | words joined by single spaces have no other whitespace |
| Strings.JoinWordsVisible | src/document_loader.py:48 | words joined by single spaces keep exactly the words' characters visible |
| Strings.CollapseSpec | src/document_loader.py:48 | `' '.join(s.split())` is collapsed and stripped, has the same words as `s` in the same order and the same visible characters, and collapsing it again changes nothing |
| Strings.Take | src/rag_pipeline.py:117 | `s[:n]` is a prefix of length min(n, len(s)) |
| Paths.PathJoin | src/rag_pipeline.py:44 | joining under a non-empty directory gives a path with a directory part that ends with the name; an empty directory leaves the name |
| VectorStore.SimilarityRange | src/vector_store.py:92 | for distance >= 0 the score is defined, in (0, 1], and 1 exactly at distance 0 |
| VectorStore.Similarity | src/vector_store.py:92 | the score is defined exactly when the distance is not -1, and is then the inverse of 1 + distance |
| VectorStore.SimilarityOrder | src/vector_store.py:92 | for non-negative distances, a smaller distance exactly when a larger score |
| VectorStore.AdmittedBound | src/vector_store.py:86-87 | the admitted pairs are pairs of the row with idx < len(chunks), no more of them than the row |
| VectorStore.AssembleErrStops | src/vector_store.py:86-93 | once a pair raises, the result is that error whatever follows |
| VectorStore.AssembleSpec | src/vector_store.py:85-95 | assembly succeeds exactly when every admitted pair gives a record, and then returns those records in row order, one per admitted pair |
| VectorStore.AssembleRecords | src/vector_store.py:86-95 | every assembled record is the record of one of the chunks (its content, metadata and id), scored as the inverse of 1 + distance |
| VectorStore.AssembleBound | src/vector_store.py:82-95 | at most one record per pair of the row, not at most the number of chunks |
| VectorStore.SearchedBound | src/vector_store.py:82-95 | if FAISS returns exactly k pairs, a search returns at most k records |
| VectorStore.RecordSpec | src/vector_store.py:88-92 | a record carries its chunk's content, metadata and id, the pair's distance, and the score s with s * (1 + d) = 1 in (0, 1] |
| VectorStore.PaddingSelectsLast | src/vector_store.py:87-89 | the padding index -1 passes the filter and selects the last chunk, or raises IndexError when there are no chunks |
| VectorStore.GenuineRow | src/vector_store.py:85-95 | a row of valid positions with non-negative distances gives one record per pair, in order, each with its chunk's content and a score in (0, 1] |
| VectorStore.AdmitsAll | src/vector_store.py:86-87 | a row of indices below len(chunks) is admitted whole |
| DocumentLoader.Contents | src/vector_store.py:37 | the texts embedded are the chunks' contents, one per chunk, in order |
| VectorStore.CacheRoundTrip | src/vector_store.py:40-59 | after a build reads or writes the cache, the next build with that path reads the same embeddings whatever model or chunks it is given, and writes nothing |
| VectorStore.IndexedSpec | src/vector_store.py:40-66 | a build succeeds exactly when the embeddings were had and all have the index's width, and then the index holds exactly them; a build that had its embeddings keeps the cache it wrote; vectors of different lengths raise in the conversion to a matrix and keep the old index; vectors of one wrong width raise in `add` and leave a new empty index; when the embeddings were not had, nothing changes |
| VectorStore.NoCache | src/vector_store.py:45-52 | without a cache path the model computes the embeddings and no file changes |
| VectorStore.CachedEmbeddings | src/vector_store.py:40-59 | the build's embeddings and cache files: an existing cache file is read and nothing written; otherwise the model's embeddings of the texts, which a given cache path then holds, no other file being added or changed; raises (`makedirs('')`) exactly when a cache path without a directory part is given and no cache file exists |
| VectorStore.Searched | src/vector_store.py:70-95 | once an index exists: the index's error is passed on, and every returned record is the record of one of the chunks |
| VectorStore.LoadedModel | src/vector_store.py:24-29 | the model already loaded is kept; otherwise a model of the configured name |
| VectorStore.SanskritVectorStore.constructor | src/vector_store.py:14-22 | no model, no index, no chunks, dimension 384 |
| VectorStore.SanskritVectorStore.LoadModel | src/vector_store.py:24-29 | loads only when unset; a second call changes nothing |
| VectorStore.SanskritVectorStore.BuildIndex | src/vector_store.py:31-68 | stores the chunks unchanged and loads the model; the result, cache and index are `Indexed` of the cached or computed embeddings (no count check): a failed cache write or vectors of different lengths leave the index as it was, vectors of one wrong width leave a new empty index and raise, others fill the index |
| VectorStore.SanskritVectorStore.AssembleResults | src/vector_store.py:85-95 | the result loop returns exactly `Assemble` of the row |
| VectorStore.SanskritVectorStore.Search | src/vector_store.py:70-95 | before any build: the ValueError and nothing changed; afterwards the model is loaded and the result is the assembled row for the embedded query |
| LlmGenerator.Contents | src/llm_generator.py:47 | the documents' contents in retrieval order |
| LlmGenerator.Context | src/llm_generator.py:47 | the joined context is empty without documents, the single content for one document, and otherwise opens with the first document's content and closes with the last one's |
| LlmGenerator.Truncate | src/llm_generator.py:50-51 | context up to 2000 characters is unchanged; a longer one becomes its first 2000 characters and "...", 2003 in all |
| LlmGenerator.TruncateIdempotent | src/llm_generator.py:50-51 | truncated context is at most 2003 characters and truncating it again changes nothing |
| LlmGenerator.PromptParts | src/llm_generator.py:54-58 | the prompt reads back the context after "Context: " and the question before the closing instruction |
| LlmGenerator.Prompt | src/llm_generator.py:54-58 | the prompt opens with "Context: " and the context, ends with the closing instruction, and is exactly as long as its five parts |
| LlmGenerator.PromptInjective | src/llm_generator.py:54-58 | prompts with equal-length contexts are equal exactly when contexts and questions are |
| LlmGenerator.AnswerSpec | src/llm_generator.py:42-79 | the result echoes the query and model name, counts every input document as used, and is the sampler's reply to the prompt built from the documents' contents joined by blank lines and cut to 2000 characters plus "...", at most 2003 characters |
| LlmGenerator.Answer | src/llm_generator.py:42-79 | a result echoes the query and the model name, counts every input document, and is the sampler's reply to the truncated context's prompt; a failure is the sampler's exception for that same prompt |
| LlmGenerator.SimpleResponseSpec | src/llm_generator.py:81-94 | header, then a prefix of the contents joined by "\n" of exactly min(800, their length) characters, then footer; header and footer alone for no documents |
| LlmGenerator.SimpleResponse | src/llm_generator.py:81-94 | opens with the header, ends with the footer, and holds exactly min(800, length of the joined contents) characters between them |
| LlmGenerator.SanskritLLMGenerator.constructor | src/llm_generator.py:11-19 | all three handles unset |
| LlmGenerator.SanskritLLMGenerator.LoadModel | src/llm_generator.py:21-40 | loads tokenizer, model and pipeline only when the model is unset |
| LlmGenerator.SanskritLLMGenerator.GenerateResponse | src/llm_generator.py:42-79 | loads the model once, then returns the answer for the truncated context's prompt |
| PerformanceLog.Round3Spec | src/logger.py:35 | the rounded latency is a whole number of milliseconds, within half a millisecond, and rounding it again changes nothing |
| PerformanceLog.SuccessfulSpec | src/logger.py:57 | an entry is among the successful ones exactly when it is in the log with success true or missing; no more of them than entries |
| PerformanceLog.SuccessfulAppend | src/logger.py:57 | the filter keeps a single entry exactly when it succeeded and works part by part over a concatenation, so every successful entry is kept, repeats included, in log order |
| PerformanceLog.Latencies | src/logger.py:58 | the latencies of the given entries, in order |
| PerformanceLog.Extremes | src/logger.py:64-65 | min and max are elements of the list that bound every element |
| PerformanceLog.ExtremesAt | src/logger.py:64-65 | every element lies between min and max |
| PerformanceLog.SumAtLeast | src/logger.py:63 | n values none below lo sum to at least n * lo |
| PerformanceLog.SumAtMost | src/logger.py:63 | n values none above hi sum to at most n * hi |
| PerformanceLog.MeanBound | src/logger.py:63 | a sum between n * lo and n * hi has its mean between lo and hi |
| PerformanceLog.MeanBetween | src/logger.py:63-65 | the mean of a non-empty list lies between its min and max |
| PerformanceLog.Percentage | src/logger.py:66 | n / t * 100 for n <= t is the percentage n of t, in [0, 100] |
| PerformanceLog.LatencySpec | src/logger.py:57-65 | over the successful entries, min and max are latencies of some successful entry, bound all of them, and enclose the mean |
| PerformanceLog.StatsShape | src/logger.py:48-61 | total_queries is the number of entries; only the empty log gives the three-key result, with zeros |
| PerformanceLog.Stats | src/logger.py:48-67 | total_queries is the number of entries; the three-key result exactly for the empty log; otherwise successful_queries <= total_queries and a success rate in [0, 100] |
| PerformanceLog.StatsRate | src/logger.py:57-66 | successful_queries <= total_queries and success_rate is their percentage in [0, 100] |
| PerformanceLog.StatsLatencies | src/logger.py:58-65 | latency figures are 0 with no success; otherwise min <= average <= max, min and max taken by successful entries |
| PerformanceLog.NewEntry | src/logger.py:32-38 | the entry records timestamp, query, document count and success as given, and the latency within half a millisecond |
| PerformanceLog.Loaded | src/logger.py:21-28 | the list after `_load_existing_logs`: kept for a missing file, emptied for an unparseable one, replaced by a readable one's entries |
| PerformanceLog.SaveError | src/logger.py:42-46 | a save raises exactly unless the path has a directory part and the write goes through; `makedirs('')`'s error for a path without one, otherwise the write's error |
| PerformanceLog.SavedFile | src/logger.py:42-46 | a save that raises nothing leaves the whole list in the file; the file changes only when a path with a directory part was opened; a failure after `open` leaves it unparseable |
| PerformanceLog.ReloadAfterSave | src/logger.py:21-46 | a logger started after a save finds every entry when the save succeeded, the old file's entries when it failed before `open`, and none when it failed after `open` |
| PerformanceLog.PerformanceLogger.constructor | src/logger.py:11-19 | the log path is the one given, or `performance_log.json` under the log directory when none is; the entries are those loaded from the file: none for a missing or unparseable file |
| PerformanceLog.PerformanceLogger.LoadExistingLogs | src/logger.py:21-28 | a missing file keeps the list, an unparseable one empties it, a readable one replaces it |
| PerformanceLog.PerformanceLogger.LogQuery | src/logger.py:30-46 | appends exactly one entry at the end, earlier ones untouched; returns the save's exception if any; the file then holds the whole list, keeps its old contents when the save failed before `open`, and is cut short when it failed after |
| PerformanceLog.PerformanceLogger.GetStatistics | src/logger.py:48-67 | counts all entries; the three-key result exactly for the empty log; success rate in [0, 100]; min <= average <= max when something succeeded |
| RagPipeline.Excerpts | src/rag_pipeline.py:115-117 | one excerpt per document, in order |
| RagPipeline.Excerpt | src/rag_pipeline.py:117 | an excerpt opens with the bracketed title and a newline and is exactly min(300, content length) characters longer than that |
| RagPipeline.ExcerptSpec | src/rag_pipeline.py:117 | an excerpt is the bracketed title and a newline, then the prefix of the content of exactly min(300, its length) characters |
| RagPipeline.CreateSimpleResponse | src/rag_pipeline.py:109-120 | the apology without documents; otherwise the header followed by the first document's excerpt (NotFoundExactlyWhenEmpty and CreateSimpleResponseSnoc give the rest) |
| RagPipeline.NotFoundExactlyWhenEmpty | src/rag_pipeline.py:111-112 | the fixed apology is returned exactly when nothing was retrieved |
| RagPipeline.CreateSimpleResponseSnoc | src/rag_pipeline.py:114-119 | one document gives header plus excerpt; each further document appends a blank line and its excerpt, leaving the earlier text alone |
| RagPipeline.Respond | src/rag_pipeline.py:72-80 | with the LLM, a response is the sampler's reply to the prompt built from the retrieved contents, truncated to at most 2003 characters; without it, a response always exists and is the apology exactly when nothing was retrieved |
| RagPipeline.Retrieval | src/rag_pipeline.py:66 | ValueError before any index is built; otherwise every retrieved record is the record of one of the chunks |
| RagPipeline.Attempt | src/rag_pipeline.py:59-80 | a search error is the attempt's error before any generation; a successful attempt carries exactly the retrieved documents; without the LLM, a successful search always gives a response, the apology exactly when nothing was retrieved |
| RagPipeline.Recover | src/rag_pipeline.py:97-107 | appends one failure entry with 0 documents, earlier entries kept; raises exactly when its save raises, with that save's error; otherwise returns the error envelope with the given error and leaves the whole list in the file |
| RagPipeline.FinishWritten | src/rag_pipeline.py:83-107 | with every save succeeding: exactly one entry appended, the file holds the list, and an envelope; a success entry with the document count and the full success envelope, or a failure entry with 0 documents and the error envelope |
| RagPipeline.FinishRaises | src/rag_pipeline.py:83-107 | the exception escapes exactly when the `except` branch runs (the `try` body or the success entry's save raised) and its own save raises, and it is that save's exception; a query that returns leaves the whole list in the file |
| RagPipeline.FinishUnwritten | src/rag_pipeline.py:83-107 | when the success entry's save raises, two entries are appended (success, then failure); the error envelope with that exception is returned if the handler's save succeeds, otherwise the handler's exception escapes |
| RagPipeline.NoIndexFails | src/rag_pipeline.py:97-107 | with no index, whenever the handler's save succeeds, the query returns the error envelope of the search's ValueError |
| RagPipeline.SetupCacheWritable | src/rag_pipeline.py:44-45 | the cache path under a non-empty model directory never meets the directory-less makedirs error |
| RagPipeline.SanskritRAGPipeline.constructor | src/rag_pipeline.py:16-25 | fresh components: no documents; the embedding model's name and dimension 384, no model, no index, no chunks; the language model's name and all three handles unset; the log at its default path with the file's entries loaded |
| RagPipeline.SanskritRAGPipeline.SetupPipeline | src/rag_pipeline.py:30-53 | loads documents; with none, returns with chunks, model, index and cache unchanged; otherwise chunks all held documents with size 500 and builds the index with the cache under the model directory, passing on the build's exception |
| RagPipeline.SanskritRAGPipeline.Query | src/rag_pipeline.py:55-107 | k defaults to 3 and the LLM is used by default; the response is the LLM answer or the simple response; the log list, the log file and the outcome are `Finish` of that attempt with the two saves; the language model is loaded only when asked for after a successful search, and the handles are otherwise unchanged |
| RagPipeline.SanskritRAGPipeline.Conclude | src/rag_pipeline.py:83-107 | leaves the log list, the log file and the outcome that `Finish` gives for the two saves |

## Left out

- Embedding computation and the FAISS search are parameters (`encode`, `nearest`). Nearest-neighbour correctness, result ordering and float32 conversion are not modelled.
- `save_index` and `load_index` are thin FAISS wrappers and are not modelled.
- Infinite or NaN distances are not modelled. Distances are exact reals, and only the division by zero at distance -1 is kept.
- Sampling is the `sample` parameter, and its error stands for an exception of the generation call.
- LlmGenerator.SanskritLLMGenerator.LoadModel: handles are modelled by the model name they were loaded from, not as loaded objects. Loading always succeeds. A download or loading failure, which would leave the tokenizer set and the model unset, is not modelled.
- VectorStore.SanskritVectorStore.LoadModel: constructing the embedding model always succeeds. A download or loading failure is not modelled.
- VectorStore.SanskritVectorStore.BuildIndex: `encode` never raises. Cache writes fail only for a path without a directory part. Another failing pickle write, which would leave a cut-short cache file, is not modelled.
- VectorStore.SanskritVectorStore.BuildIndex: an empty embedding list becomes an empty index. What NumPy and FAISS do with an empty list is not modelled. For vectors of different lengths, the error is only the start of NumPy's message, whose tail depends on the NumPy version and the shapes.
- VectorStore.SanskritVectorStore.Search: `encode` of the query never raises.
- DocumentLoader.Loader.LoadDocuments: an existing data path that is not a directory makes `os.listdir` raise. This is not modelled: the listing is either missing or a list of entries.
- PerformanceLog.PerformanceLogger.LogQuery: a save that fails after `open` is taken to leave a file `json.load` rejects. A failure after every byte reached the file is not told apart.
- Files are abstract:
  - the directory listing and the reads;
  - the embeddings cache, a map from path to embeddings (a corrupt pickle file is not modelled);
  - the log file, a `LogFile` value (JSON that is not a list of entries with the expected keys is not modelled, except a missing `success` key).
- PerformanceLog.ReloadAfterSave: a UTF-8 locale is assumed. The log is written as UTF-8 but read back in the locale's encoding (src/logger.py:25, 45). Under another locale, a saved non-ASCII query can fail to decode. The bare `except` then empties the list, and the next save overwrites the history. `LogFile` does not model encodings.
- PerformanceLog.StatsLatencies: min <= average <= max holds on exact reals. The program computes `sum(latencies) / len(latencies)` in binary floating point without rounding, so its average can leave that range by a rounding step (three latencies of 0.1 give 0.10000000000000002).
- PerformanceLog.MeanBetween: the same bound, on exact reals only.
- PerformanceLog.LatencySpec: the same bound, on exact reals only.
- PerformanceLog.PerformanceLogger.GetStatistics: min <= average <= max on exact reals only, as for StatsLatencies.
- PerformanceLog.Round3: `round(x, 3)` is modelled on exact reals with ties to even. Binary floating-point rounding of the stored latency is not modelled.
- DocumentLoader.Loader.LoadDocuments: the documents of one call are gathered and appended once at the end, not one by one. The final list is the same, because an exception inside the loop is caught there.
- RagPipeline.SanskritRAGPipeline.constructor: it builds the components but does not run setup. `SetupPipeline` is the separate step, and its `Err` result stands for the exception the constructor re-raises.
- `LOG_DIR` comes from `config.py` and is the constructor argument `logDir`.
- `config.py` is not part of this model. `CHUNK_SIZE` and `TOP_K_DOCS` are constants.
- Console output, `interactive_mode`, `print_statistics`, the `__main__` blocks and the web front end are not modelled.
- VectorStore.Retrieved keeps the chunk id as its own field rather than inside the metadata dictionary.
