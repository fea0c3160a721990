/** `SanskritRAGPipeline`: loads and chunks the documents, builds the vector
    index, and answers queries by retrieval followed by generation. Every
    query is logged, and its answer is wrapped in a success or error
    envelope. Clock readings, the outcome of writing the log file, and the
    models are supplied from outside. */
module RagPipeline {
  import opened Results
  import opened Strings
  import opened Paths
  import opened DocumentLoader
  import opened VectorStore
  import opened LlmGenerator
  import opened PerformanceLog

  /** The number of documents a query retrieves by default. */
  const TOP_K_DOCS: int := 3

  /** The cache file name under the model directory. */
  const EMBEDDINGS_FILE: string := "embeddings.pkl"

  /** The answer when nothing was retrieved. */
  const NOT_FOUND: string := "क्षम्यताम्, प्रश्नस्य " + "उत्तरं दस्तावेजेषु न प्राप्तम्।"

  /** The header of the answer built from retrieved documents. */
  const ANSWER_HEAD: string := "प्रश्नस्य आधारेण उत्तरम्:\n\n"

  /** Each document shows at most this many characters of its content. */
  const EXCERPT_LIMIT: nat := 300

  const EXCERPT_SEPARATOR: string := "\n\n"

  /** The dictionary `query` returns: the success envelope or the error one. */
  datatype Envelope =
    | Answered(query: string, retrievedDocs: seq<Retrieved>, response: string,
               latency: real, numDocsRetrieved: nat)
    | Failed(query: string, error: string, latency: real)

  /** How a call of `query` ends: it returns an envelope, or the exception
      raised by writing the log in its error handler escapes it. */
  datatype QueryOutcome = Returned(envelope: Envelope) | Raised(error: string)

  /** The readings the clocks give during one query: `time.time()` at the
      start, after the answer and in the error handler, and
      `datetime.now().isoformat()` when the success entry and the error
      entry are made. */
  datatype Clock = Clock(start: real, answered: real, failed: real,
                         answeredStamp: string, failedStamp: string)

  // ---------------------------------------------------------------------------
  // The answer without a language model

  /** One document's part of the answer: its title in brackets, then the
      beginning of its content. */
  function Excerpt(doc: Retrieved): (e: string)
    ensures "【" + doc.metadata.title + "】\n" <= e
    ensures |e| == |doc.metadata.title| + 3
      + (if |doc.content| < EXCERPT_LIMIT then |doc.content| else EXCERPT_LIMIT)
  {
    "【" + doc.metadata.title + "】\n" + Take(doc.content, EXCERPT_LIMIT)
  }

  function Excerpts(docs: seq<Retrieved>): (es: seq<string>)
    ensures |es| == |docs|
    ensures forall i :: 0 <= i < |docs| ==> es[i] == Excerpt(docs[i])
  {
    seq(|docs|, i requires 0 <= i < |docs| => Excerpt(docs[i]))
  }

  /** `_create_simple_response`: the apology without documents; otherwise
      the header, then the first document's excerpt. */
  function CreateSimpleResponse(query: string, docs: seq<Retrieved>): (r: string)
    ensures docs == [] ==> r == NOT_FOUND
    ensures docs != [] ==> ANSWER_HEAD + Excerpt(docs[0]) <= r
  {
    if docs == [] then NOT_FOUND else ANSWER_HEAD + Join(EXCERPT_SEPARATOR, Excerpts(docs))
  }

  /** An excerpt opens with the bracketed title and a newline, followed by
      the first 300 characters of the content, or all of it when shorter:
      a prefix of the content of exactly that length. */
  lemma ExcerptSpec(doc: Retrieved)
    ensures var e := Excerpt(doc);
      var head := |doc.metadata.title| + 3;
      |e| == head + (if |doc.content| < EXCERPT_LIMIT then |doc.content| else EXCERPT_LIMIT)
      && e[..head] == "【" + doc.metadata.title + "】\n"
      && e[head..] <= doc.content
      && (|doc.content| <= EXCERPT_LIMIT ==> e[head..] == doc.content)
  {
    var e := Excerpt(doc);
    var head := |doc.metadata.title| + 3;
    assert e == ("【" + doc.metadata.title + "】\n") + Take(doc.content, EXCERPT_LIMIT);
    assert e[head..] == Take(doc.content, EXCERPT_LIMIT);
  }

  /** The fixed apology is returned exactly when nothing was retrieved. */
  lemma NotFoundExactlyWhenEmpty(query: string, docs: seq<Retrieved>)
    ensures CreateSimpleResponse(query, docs) == NOT_FOUND <==> docs == []
  {
    if docs != [] {
      assert CreateSimpleResponse(query, docs)[0] == 'प';
      assert NOT_FOUND[0] == 'क';
    }
  }

  /** The answer for one document is the header and its excerpt, and each
      further document appends a blank line and its own excerpt, leaving the
      answer for the earlier documents as it was. */
  lemma CreateSimpleResponseSnoc(query: string, docs: seq<Retrieved>, doc: Retrieved)
    ensures docs == [] ==> CreateSimpleResponse(query, [doc]) == ANSWER_HEAD + Excerpt(doc)
    ensures docs != [] ==>
      CreateSimpleResponse(query, docs + [doc])
        == CreateSimpleResponse(query, docs) + EXCERPT_SEPARATOR + Excerpt(doc)
  {
    if docs == [] {
      assert Excerpts([doc]) == [Excerpt(doc)];
    } else {
      var es, e := Excerpts(docs), Excerpt(doc);
      assert Excerpts(docs + [doc]) == es + [e] by {
        assert forall i :: 0 <= i < |docs| ==> (docs + [doc])[i] == docs[i];
      }
      JoinSnoc(EXCERPT_SEPARATOR, es, e);
      assert CreateSimpleResponse(query, docs + [doc]) == ANSWER_HEAD + (Join(EXCERPT_SEPARATOR, es) + EXCERPT_SEPARATOR + e);
      assert CreateSimpleResponse(query, docs) == ANSWER_HEAD + Join(EXCERPT_SEPARATOR, es);
      var x, y := ANSWER_HEAD, Join(EXCERPT_SEPARATOR, es);
      assert x + (y + EXCERPT_SEPARATOR + e) == (x + y) + EXCERPT_SEPARATOR + e;
    }
  }

  // ---------------------------------------------------------------------------
  // One query

  /** The response text: the language model's answer when `use_llm` is set,
      otherwise the answer built from the excerpts. */
  function Respond(question: string, docs: seq<Retrieved>, useLlm: bool, llmName: string,
                   sample: (string, string, int) -> Result<string>): (r: Result<string>)
    ensures useLlm && r.Ok? ==>
      var context := Truncate(Context(docs));
      |context| <= CONTEXT_LIMIT + |ELLIPSIS| && sample(llmName, Prompt(context, question), MAX_LENGTH) == r
    ensures !useLlm ==> r.Ok? && (r.value == NOT_FOUND <==> docs == [])
  {
    if useLlm then
      match Answer(llmName, question, docs, MAX_LENGTH, sample)
      case Err(e) => Err(e)
      case Ok(g) =>
        AnswerSpec(llmName, question, docs, MAX_LENGTH, sample);
        Ok(g.answer)
    else
      NotFoundExactlyWhenEmpty(question, docs);
      Ok(CreateSimpleResponse(question, docs))
  }

  /** What `search` gives a query: the ValueError before any index is
      built, otherwise the assembled row for the embedded question, with the
      model `_load_model` leaves. */
  function Retrieval(index: Option<FlatIndex>, chunks: seq<Chunk>, model: Option<Embedder>,
                     modelName: string, question: string, k: int,
                     encode: (Embedder, seq<string>) -> seq<Vector>,
                     nearest: (FlatIndex, seq<Vector>, int) -> Result<seq<Hit>>): (r: Result<seq<Retrieved>>)
    ensures index.None? ==> r == Err(NOT_BUILT)
    ensures r.Ok? ==> forall d :: d in r.value ==> RecordOf(chunks, d)
  {
    if index.None? then Err(NOT_BUILT)
    else Searched(index.value, chunks, LoadedModel(model, modelName), question, k, encode, nearest)
  }

  /** The body of `query`'s `try` up to the log call: the retrieved documents
      and the response text, or the first exception raised. */
  function Attempt(searched: Result<seq<Retrieved>>, question: string, useLlm: bool,
                   llmName: string, sample: (string, string, int) -> Result<string>)
    : (a: Result<(seq<Retrieved>, string)>)
    ensures searched.Err? ==> a == Err(searched.error)
    ensures a.Ok? ==> searched == Ok(a.value.0)
    ensures a.Ok? && !useLlm ==> (a.value.1 == NOT_FOUND <==> a.value.0 == [])
    ensures searched.Ok? && !useLlm ==> a.Ok?
  {
    match searched
    case Err(e) => Err(e)
    case Ok(docs) =>
      match Respond(question, docs, useLlm, llmName, sample)
      case Err(e) => Err(e)
      case Ok(text) => Ok((docs, text))
  }

  /** The log list, the log file and how the query ends. */
  datatype Logged = Logged(logs: seq<LogEntry>, file: LogFile, outcome: QueryOutcome)

  /** The `except` branch over the log list `logs` and the file `file`: one
      failure entry with no documents, then the error envelope, unless its
      own save raises, which escapes the query. */
  function Recover(error: string, logs: seq<LogEntry>, file: LogFile, question: string, clock: Clock,
                   logFile: string, write: Write): (l: Logged)
    ensures |l.logs| == |logs| + 1 && l.logs[..|logs|] == logs
    ensures l.logs[|logs|].query == question && l.logs[|logs|].success == Some(false)
      && l.logs[|logs|].numDocsRetrieved == 0
    ensures l.outcome.Raised? <==> SaveError(logFile, write).Some?
    ensures l.outcome.Raised? ==> l.outcome.error == SaveError(logFile, write).value
    ensures l.outcome.Returned? ==>
      l.outcome.envelope == Failed(question, error, clock.failed - clock.start) && l.file == Present(l.logs)
  {
    var latency := clock.failed - clock.start;
    var logs' := logs + [NewEntry(clock.failedStamp, question, latency, 0, false)];
    var saveError := SaveError(logFile, write);
    Logged(logs', SavedFile(logFile, write, file, logs'),
           if saveError.None? then Returned(Failed(question, error, latency))
           else Raised(saveError.value))
  }

  /** The end of a query whose `try` body came to `attempt`, over the log list
      `logs` and the file `file`. `first` is how the success entry's save
      goes and `second` how the failure entry's save in the `except` branch
      goes; the two saves are independent. */
  function Finish(attempt: Result<(seq<Retrieved>, string)>, question: string, clock: Clock,
                  logFile: string, first: Write, second: Write,
                  logs: seq<LogEntry>, file: LogFile): Logged
  {
    match attempt
    case Err(e) => Recover(e, logs, file, question, clock, logFile, second)
    case Ok((docs, text)) =>
      var latency := clock.answered - clock.start;
      var logs' := logs + [NewEntry(clock.answeredStamp, question, latency, |docs|, true)];
      var file' := SavedFile(logFile, first, file, logs');
      match SaveError(logFile, first)
      case None => Logged(logs', file', Returned(Answered(question, docs, text, latency, |docs|)))
      case Some(e) => Recover(e, logs', file', question, clock, logFile, second)
  }

  /** When the log can be written, a query appends exactly one entry, the
      file holds the whole list, and an envelope is returned. A success
      appends a success entry that counts the documents the envelope
      carries; a failure appends a failure entry with no documents and
      reports the exception's text. Either way the entry holds the
      envelope's latency, rounded to the millisecond. */
  lemma FinishWritten(attempt: Result<(seq<Retrieved>, string)>, question: string, clock: Clock,
                      logFile: string, logs: seq<LogEntry>, file: LogFile)
    requires HasDirectory(logFile)
    ensures var l := Finish(attempt, question, clock, logFile, Written, Written, logs, file);
      |l.logs| == |logs| + 1 && l.logs[..|logs|] == logs && l.file == Present(l.logs)
      && l.outcome.Returned?
      && l.logs[|logs|].query == question
      && l.logs[|logs|].latencySeconds == Round3(l.outcome.envelope.latency)
      && l.outcome.envelope.query == question
      && (l.outcome.envelope.Answered? <==> attempt.Ok?)
    ensures var l := Finish(attempt, question, clock, logFile, Written, Written, logs, file);
      attempt.Ok? ==>
        l.outcome.envelope.retrievedDocs == attempt.value.0
        && l.outcome.envelope.response == attempt.value.1
        && l.outcome.envelope.numDocsRetrieved == |attempt.value.0|
        && l.logs[|logs|].success == Some(true)
        && l.logs[|logs|].numDocsRetrieved == |attempt.value.0|
    ensures var l := Finish(attempt, question, clock, logFile, Written, Written, logs, file);
      attempt.Err? ==>
        l.outcome.envelope.error == attempt.error
        && l.logs[|logs|].success == Some(false) && l.logs[|logs|].numDocsRetrieved == 0
  {
    var l := Finish(attempt, question, clock, logFile, Written, Written, logs, file);
    assert l.logs[..|logs|] == logs;
  }

  /** The exception escapes the query exactly when the `except` branch runs
      (the `try` body raised, or the success entry's save did) and its own
      save raises; it is that save's exception. A query that returns leaves
      the whole list in the file. */
  lemma FinishRaises(attempt: Result<(seq<Retrieved>, string)>, question: string, clock: Clock,
                     logFile: string, first: Write, second: Write,
                     logs: seq<LogEntry>, file: LogFile)
    ensures var l := Finish(attempt, question, clock, logFile, first, second, logs, file);
      && (l.outcome.Raised? <==>
            (attempt.Err? || SaveError(logFile, first).Some?) && SaveError(logFile, second).Some?)
      && (l.outcome.Raised? ==> l.outcome.error == SaveError(logFile, second).value)
      && (l.outcome.Returned? ==> l.file == Present(l.logs))
  {
  }

  /** When the success entry's save raises, the `except` branch appends a
      failure entry after it, so the list grows by two. If the branch's own
      save goes through, the query returns the error envelope with the first
      save's exception; otherwise that second exception escapes. */
  lemma FinishUnwritten(attempt: Result<(seq<Retrieved>, string)>, question: string, clock: Clock,
                        logFile: string, first: Write, second: Write,
                        logs: seq<LogEntry>, file: LogFile)
    requires attempt.Ok? && SaveError(logFile, first).Some?
    ensures var l := Finish(attempt, question, clock, logFile, first, second, logs, file);
      && |l.logs| == |logs| + 2 && l.logs[..|logs|] == logs
      && l.logs[|logs|].success == Some(true)
      && l.logs[|logs|].numDocsRetrieved == |attempt.value.0|
      && l.logs[|logs| + 1].success == Some(false)
      && l.logs[|logs| + 1].numDocsRetrieved == 0
    ensures var l := Finish(attempt, question, clock, logFile, first, second, logs, file);
      SaveError(logFile, second).None? ==>
        l.outcome == Returned(Failed(question, SaveError(logFile, first).value, clock.failed - clock.start))
        && l.file == Present(l.logs)
    ensures var l := Finish(attempt, question, clock, logFile, first, second, logs, file);
      SaveError(logFile, second).Some? ==> l.outcome == Raised(SaveError(logFile, second).value)
  {
    var l := Finish(attempt, question, clock, logFile, first, second, logs, file);
    assert l.logs[..|logs|] == logs;
  }

  /** Before any index is built every query fails with the `search` error,
      whatever the models would say. */
  lemma NoIndexFails(question: string, useLlm: bool, llmName: string,
                     sample: (string, string, int) -> Result<string>, clock: Clock,
                     logFile: string, first: Write, logs: seq<LogEntry>, file: LogFile)
    requires HasDirectory(logFile)
    ensures Finish(Attempt(Err(NOT_BUILT), question, useLlm, llmName, sample), question, clock,
                   logFile, first, Written, logs, file).outcome
      == Returned(Failed(question, NOT_BUILT, clock.failed - clock.start))
  {
  }

  /** The cache path the pipeline builds under a model directory always has a
      directory part, so the cache write never meets `os.makedirs('')`. */
  lemma SetupCacheWritable(modelDir: string, model: Embedder, texts: seq<string>,
                           files: map<string, seq<Vector>>,
                           encode: (Embedder, seq<string>) -> seq<Vector>)
    requires modelDir != ""
    ensures CachedEmbeddings(model, texts, Some(PathJoin(modelDir, EMBEDDINGS_FILE)), files, encode).Ok?
  {
  }

  class SanskritRAGPipeline {
    const loader: Loader
    const vectorStore: SanskritVectorStore
    const llm: SanskritLLMGenerator
    const logger: PerformanceLogger
    /** The directory the embeddings cache lives in. */
    const modelDir: string

    /** The components as `__init__` creates them, before `_setup_pipeline`. */
    constructor (modelDir: string, logDir: string, existingLog: LogFile)
      ensures this.modelDir == modelDir
      ensures fresh(loader) && fresh(vectorStore) && fresh(llm) && fresh(logger)
      ensures loader.documents == []
      ensures vectorStore.modelName == EMBEDDING_MODEL && vectorStore.dimension == DIMENSION
      ensures vectorStore.index == None && vectorStore.model == None && vectorStore.chunks == []
      ensures llm.modelName == LLM_MODEL
      ensures llm.tokenizer == None && llm.model == None && llm.generator == None
      ensures logger.logFile == PathJoin(logDir, LOG_FILE_NAME) && logger.file == existingLog
      ensures logger.logs == Loaded(existingLog, [])
      ensures logDir != [] ==> HasDirectory(logger.logFile)
    {
      this.modelDir := modelDir;
      loader := new Loader();
      vectorStore := new SanskritVectorStore(EMBEDDING_MODEL);
      llm := new SanskritLLMGenerator(LLM_MODEL);
      logger := new PerformanceLogger(None, logDir, existingLog);
    }

    /** `_setup_pipeline`: loads the documents; with none it stops before
        chunking and the index stays unbuilt; otherwise it chunks every
        loaded document and builds the index with the cache under the model
        directory. An exception from the build is passed on. */
    method SetupPipeline(listing: Option<seq<DirEntry>>, files: map<string, seq<Vector>>,
                         encode: (Embedder, seq<string>) -> seq<Vector>)
      returns (r: Result<()>, cache: map<string, seq<Vector>>)
      modifies loader, vectorStore`model, vectorStore`index, vectorStore`chunks
      ensures listing.None? ==> loader.documents == old(loader.documents)
      ensures listing.Some? ==> loader.documents == old(loader.documents) + LoadAll(listing.value)
      ensures listing.None? || loader.documents == [] ==>
        r == Ok(()) && cache == files && vectorStore.index == old(vectorStore.index)
        && vectorStore.chunks == old(vectorStore.chunks) && vectorStore.model == old(vectorStore.model)
      ensures listing.Some? && loader.documents != [] ==>
        vectorStore.chunks == ChunkAll(loader.documents, CHUNK_SIZE)
        && vectorStore.model == Some(LoadedModel(old(vectorStore.model), vectorStore.modelName))
        && (r, cache, vectorStore.index)
           == Indexed(vectorStore.dimension, old(vectorStore.index), files,
                      CachedEmbeddings(vectorStore.model.value, DocumentLoader.Contents(vectorStore.chunks),
                                       Some(PathJoin(modelDir, EMBEDDINGS_FILE)), files, encode))
    {
      ghost var model0, index0, chunks0 := vectorStore.model, vectorStore.index, vectorStore.chunks;
      var documents := loader.LoadDocuments(listing);
      ghost var loaded := loader.documents;
      assert documents == [] <==> listing.None? || loaded == [];
      if documents == [] {
        assert vectorStore.model == model0 && vectorStore.index == index0 && vectorStore.chunks == chunks0;
        return Ok(()), files;
      }
      assert listing.Some? && documents == loaded;
      var chunks := loader.ChunkDocuments(CHUNK_SIZE);
      assert chunks == ChunkAll(loaded, CHUNK_SIZE);
      var cachePath := PathJoin(modelDir, EMBEDDINGS_FILE);
      r, cache := vectorStore.BuildIndex(chunks, Some(cachePath), files, encode);
      assert loader.documents == loaded;
    }

    /** `query`: retrieves, answers, logs and wraps the answer in an
        envelope; any exception on the way is logged as a failure and
        reported in the error envelope. `first` is how saving the success
        entry goes and `second` how saving the failure entry goes. The
        language model is loaded only when it is asked for and the search
        succeeded. */
    method Query(question: string, k: int := TOP_K_DOCS, useLlm: bool := true, clock: Clock,
                 encode: (Embedder, seq<string>) -> seq<Vector>,
                 nearest: (FlatIndex, seq<Vector>, int) -> Result<seq<Hit>>,
                 sample: (string, string, int) -> Result<string>,
                 first: Write, second: Write)
      returns (outcome: QueryOutcome)
      modifies vectorStore`model, llm`tokenizer, llm`model, llm`generator, logger`logs, logger`file
      ensures var searched := Retrieval(old(vectorStore.index), vectorStore.chunks, old(vectorStore.model),
                                        vectorStore.modelName, question, k, encode, nearest);
        var l := Finish(Attempt(searched, question, useLlm, llm.modelName, sample), question, clock,
                        logger.logFile, first, second, old(logger.logs), old(logger.file));
        logger.logs == l.logs && logger.file == l.file && outcome == l.outcome
      ensures old(vectorStore.index).Some? ==>
        vectorStore.model == Some(LoadedModel(old(vectorStore.model), vectorStore.modelName))
      ensures old(vectorStore.index).None? ==> vectorStore.model == old(vectorStore.model)
      ensures var searched := Retrieval(old(vectorStore.index), vectorStore.chunks, old(vectorStore.model),
                                        vectorStore.modelName, question, k, encode, nearest);
        useLlm && searched.Ok? && old(llm.model).None? ==>
          llm.tokenizer == Some(llm.modelName) && llm.model == Some(llm.modelName)
          && llm.generator == Some(llm.modelName)
      ensures var searched := Retrieval(old(vectorStore.index), vectorStore.chunks, old(vectorStore.model),
                                        vectorStore.modelName, question, k, encode, nearest);
        !(useLlm && searched.Ok? && old(llm.model).None?) ==>
          llm.tokenizer == old(llm.tokenizer) && llm.model == old(llm.model)
          && llm.generator == old(llm.generator)
    {
      var searched := vectorStore.Search(question, k, encode, nearest);
      assert searched == Retrieval(old(vectorStore.index), vectorStore.chunks, old(vectorStore.model),
                                   vectorStore.modelName, question, k, encode, nearest);
      var attempt: Result<(seq<Retrieved>, string)>;
      if searched.Err? {
        attempt := Err(searched.error);
      } else if useLlm {
        var generated := llm.GenerateResponse(question, searched.value, MAX_LENGTH, sample);
        attempt := if generated.Err? then Err(generated.error)
                   else Ok((searched.value, generated.value.answer));
      } else {
        attempt := Ok((searched.value, CreateSimpleResponse(question, searched.value)));
      }
      assert attempt == Attempt(searched, question, useLlm, llm.modelName, sample);
      outcome := Conclude(question, attempt, clock, first, second);
    }

    /** The end of `query`: the success entry and envelope, or, when the
        `try` body or its log call raised, the failure entry and the error
        envelope; an exception from the failure's own log call escapes. */
    method Conclude(question: string, attempt: Result<(seq<Retrieved>, string)>, clock: Clock,
                    first: Write, second: Write)
      returns (outcome: QueryOutcome)
      modifies logger`logs, logger`file
      ensures var l := Finish(attempt, question, clock, logger.logFile, first, second,
                              old(logger.logs), old(logger.file));
        logger.logs == l.logs && logger.file == l.file && outcome == l.outcome
    {
      ghost var logged := Finish(attempt, question, clock, logger.logFile, first, second,
                                 logger.logs, logger.file);
      var failure: string;
      if attempt.Ok? {
        var docs, text := attempt.value.0, attempt.value.1;
        var latency := clock.answered - clock.start;
        var saved := logger.LogQuery(question, latency, |docs|, true, clock.answeredStamp, first);
        if saved.Ok? {
          assert logged == Logged(logger.logs, logger.file, Returned(Answered(question, docs, text, latency, |docs|)));
          return Returned(Answered(question, docs, text, latency, |docs|));
        }
        failure := saved.error;
      } else {
        failure := attempt.error;
      }
      assert logged == Recover(failure, logger.logs, logger.file, question, clock, logger.logFile, second);
      var latency := clock.failed - clock.start;
      var saved := logger.LogQuery(question, latency, 0, false, clock.failedStamp, second);
      if saved.Err? {
        return Raised(saved.error);
      }
      outcome := Returned(Failed(question, failure, latency));
    }
  }
}
