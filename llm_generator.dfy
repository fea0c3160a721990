/** `SanskritLLMGenerator`: the deterministic text around the language model.
    It covers the context assembled from the retrieved documents, its
    truncation, the prompt, the once-only model loading and the rule-based
    fallback answer. Sampling from the model is a function supplied from
    outside. */
module LlmGenerator {
  import opened Results
  import opened Strings
  import opened VectorStore

  const LLM_MODEL: string := "google/flan-t5-base"

  /** The context is cut to this many characters, then marked with `ELLIPSIS`. */
  const CONTEXT_LIMIT: nat := 2000
  const ELLIPSIS: string := "..."
  const CONTEXT_SEPARATOR: string := "\n\n"

  const PROMPT_HEAD: string := "Context: "
  const PROMPT_QUESTION: string := "\n\nQuestion: "
  const PROMPT_TAIL: string := "\n\nBased on the context above, provide a detailed answer in Sanskrit:"

  /** `generate_response`'s default `max_length`. */
  const MAX_LENGTH: int := 512

  /** The fallback answer shows this many characters of the joined contents. */
  const SIMPLE_LIMIT: nat := 800
  const SIMPLE_HEAD: string := "प्रश्नस्य उत्तरम्:\n\n"
  const SIMPLE_FOOT: string := "\n\n[Based on retrieved Sanskrit documents]"

  /** The dictionary `generate_response` returns. */
  datatype Generation = Generation(answer: string, query: string, contextUsed: nat, model: string)

  /** The contents of the retrieved documents, in retrieval order. */
  function Contents(docs: seq<Retrieved>): (cs: seq<string>)
    ensures |cs| == |docs|
    ensures forall i :: 0 <= i < |docs| ==> cs[i] == docs[i].content
  {
    seq(|docs|, i requires 0 <= i < |docs| => docs[i].content)
  }

  /** `"\n\n".join(doc['content'] for doc in context_docs)`: empty without
      documents, the one content for one document, and otherwise opening with
      the first document's content and closing with the last one's. */
  function Context(docs: seq<Retrieved>): (c: string)
    ensures docs == [] ==> c == ""
    ensures |docs| == 1 ==> c == docs[0].content
    ensures docs != [] ==> docs[0].content <= c && EndsWith(c, docs[|docs| - 1].content)
  {
    var cs := Contents(docs);
    if |docs| > 1 then
      JoinSnoc(CONTEXT_SEPARATOR, cs[..|cs| - 1], cs[|cs| - 1]);
      assert cs[..|cs| - 1] + [cs[|cs| - 1]] == cs;
      Join(CONTEXT_SEPARATOR, cs)
    else Join(CONTEXT_SEPARATOR, cs)
  }

  /** The context limit: longer text keeps its first 2000 characters and gets
      `"..."` appended; shorter text is left alone. */
  function Truncate(context: string): (r: string)
    ensures |context| <= CONTEXT_LIMIT ==> r == context
    ensures |context| > CONTEXT_LIMIT ==>
      |r| == CONTEXT_LIMIT + |ELLIPSIS| && r[..CONTEXT_LIMIT] == context[..CONTEXT_LIMIT]
      && r[CONTEXT_LIMIT..] == ELLIPSIS
  {
    if |context| > CONTEXT_LIMIT then context[..CONTEXT_LIMIT] + ELLIPSIS else context
  }

  /** Truncated text is never longer than 2003 characters and is a fixed
      point of truncation: the limit applied twice is the limit applied once. */
  lemma TruncateIdempotent(context: string)
    ensures |Truncate(context)| <= CONTEXT_LIMIT + |ELLIPSIS|
    ensures Truncate(Truncate(context)) == Truncate(context)
  {
    if |context| > CONTEXT_LIMIT {
      var t := Truncate(context);
      assert t[..CONTEXT_LIMIT] + ELLIPSIS == t;
    }
  }

  /** The prompt text handed to the model: the fixed opening, the context,
      the question and the closing instruction, with nothing else. */
  function Prompt(context: string, query: string): (p: string)
    ensures |p| == |PROMPT_HEAD| + |context| + |PROMPT_QUESTION| + |query| + |PROMPT_TAIL|
    ensures PROMPT_HEAD + context <= p
    ensures EndsWith(p, PROMPT_TAIL)
  {
    PROMPT_HEAD + context + PROMPT_QUESTION + query + PROMPT_TAIL
  }

  /** The pieces of `a + b + c + d + e` can be read back by position. */
  lemma Pieces(a: string, b: string, c: string, d: string, e: string)
    ensures var p := a + b + c + d + e;
      |p| == |a| + |b| + |c| + |d| + |e|
      && p[..|a|] == a && p[|a|..|a| + |b|] == b
      && p[|p| - |e| - |d|..|p| - |e|] == d && p[|p| - |e|..] == e
  {
    var p := a + b + c + d + e;
    assert p == a + (b + (c + d + e));
    assert p == (a + b + c) + d + e;
  }

  /** The prompt shows the context right after `"Context: "` and the question
      right before the closing instruction, so both can be read back from it. */
  lemma PromptParts(context: string, query: string)
    ensures var p := Prompt(context, query);
      |p| == |PROMPT_HEAD| + |context| + |PROMPT_QUESTION| + |query| + |PROMPT_TAIL|
      && p[..|PROMPT_HEAD|] == PROMPT_HEAD
      && p[|PROMPT_HEAD|..|PROMPT_HEAD| + |context|] == context
      && p[|p| - |PROMPT_TAIL| - |query|..|p| - |PROMPT_TAIL|] == query
      && p[|p| - |PROMPT_TAIL|..] == PROMPT_TAIL
  {
    Pieces(PROMPT_HEAD, context, PROMPT_QUESTION, query, PROMPT_TAIL);
  }

  /** Two prompts with contexts of equal length are equal only when both
      the contexts and the questions are. */
  lemma PromptInjective(c1: string, q1: string, c2: string, q2: string)
    requires |c1| == |c2|
    ensures Prompt(c1, q1) == Prompt(c2, q2) <==> c1 == c2 && q1 == q2
  {
    if Prompt(c1, q1) == Prompt(c2, q2) {
      PromptParts(c1, q1);
      PromptParts(c2, q2);
    }
  }

  /** What `generate_response` returns for the model loaded from `modelName`
      and the sampler's reply to the prompt. */
  function Answer(modelName: string, query: string, docs: seq<Retrieved>, maxLength: int,
                  sample: (string, string, int) -> Result<string>): (g: Result<Generation>)
    ensures g.Ok? ==> g.value.query == query && g.value.contextUsed == |docs| && g.value.model == modelName
    ensures g.Ok? ==> sample(modelName, Prompt(Truncate(Context(docs)), query), maxLength) == Ok(g.value.answer)
    ensures g.Err? ==> sample(modelName, Prompt(Truncate(Context(docs)), query), maxLength) == Err(g.error)
  {
    match sample(modelName, Prompt(Truncate(Context(docs)), query), maxLength)
    case Err(e) => Err(e)
    case Ok(text) => Ok(Generation(text, query, |docs|, modelName))
  }

  /** The result echoes the query and the model name, reports every input
      document as used even when truncation dropped some of its text, and
      its answer is the sampler's reply to the prompt built from the
      documents' contents, cut to at most 2003 characters. */
  lemma AnswerSpec(modelName: string, query: string, docs: seq<Retrieved>, maxLength: int,
                   sample: (string, string, int) -> Result<string>)
    requires Answer(modelName, query, docs, maxLength, sample).Ok?
    ensures var g := Answer(modelName, query, docs, maxLength, sample).value;
      g.query == query && g.contextUsed == |docs| && g.model == modelName
      && var context := Truncate(Context(docs));
        |context| <= CONTEXT_LIMIT + |ELLIPSIS|
        && sample(modelName, Prompt(context, query), maxLength) == Ok(g.answer)
  {
    TruncateIdempotent(Context(docs));
  }

  /** `generate_simple_response`: the header, the first 800 characters of the
      contents joined by single newlines, and the footer. The query is not used. */
  function SimpleResponse(query: string, docs: seq<Retrieved>): (r: string)
    ensures var n := |Join("\n", Contents(docs))|;
      |r| == |SIMPLE_HEAD| + (if n < SIMPLE_LIMIT then n else SIMPLE_LIMIT) + |SIMPLE_FOOT|
    ensures SIMPLE_HEAD <= r && EndsWith(r, SIMPLE_FOOT)
  {
    SIMPLE_HEAD + Take(Join("\n", Contents(docs)), SIMPLE_LIMIT) + SIMPLE_FOOT
  }

  /** The fallback answer is framed by the fixed header and footer and shows
      between them the beginning of the contents: 800 characters of them, or
      all of them when they fit. Without documents it is the header and
      footer alone. */
  lemma SimpleResponseSpec(query: string, docs: seq<Retrieved>)
    ensures var r := SimpleResponse(query, docs);
      var body := r[|SIMPLE_HEAD|..|r| - |SIMPLE_FOOT|];
      |SIMPLE_HEAD| + |SIMPLE_FOOT| <= |r| <= |SIMPLE_HEAD| + SIMPLE_LIMIT + |SIMPLE_FOOT|
      && r[..|SIMPLE_HEAD|] == SIMPLE_HEAD && r[|r| - |SIMPLE_FOOT|..] == SIMPLE_FOOT
      && body <= Join("\n", Contents(docs))
      && |body| == (if |Join("\n", Contents(docs))| < SIMPLE_LIMIT then |Join("\n", Contents(docs))| else SIMPLE_LIMIT)
      && (|Join("\n", Contents(docs))| <= SIMPLE_LIMIT ==> body == Join("\n", Contents(docs)))
    ensures docs == [] ==> SimpleResponse(query, docs) == SIMPLE_HEAD + SIMPLE_FOOT
  {
    var body := Take(Join("\n", Contents(docs)), SIMPLE_LIMIT);
    var r := SimpleResponse(query, docs);
    assert r == SIMPLE_HEAD + body + SIMPLE_FOOT;
    assert r[|SIMPLE_HEAD|..|r| - |SIMPLE_FOOT|] == body;
    if docs == [] {
      assert Contents(docs) == [];
    }
  }

  /** The tokenizer, model and text-generation pipeline, each `None` until
      loaded and then known by the model name it was loaded from. */
  class SanskritLLMGenerator {
    const modelName: string
    var tokenizer: Option<string>
    var model: Option<string>
    var generator: Option<string>

    constructor (modelName: string)
      ensures this.modelName == modelName
      ensures tokenizer == None && model == None && generator == None
    {
      this.modelName := modelName;
      tokenizer := None;
      model := None;
      generator := None;
    }

    /** `_load_model`: loads all three handles only when the model is unset;
        once loaded, a second call changes nothing. */
    method LoadModel()
      modifies this`tokenizer, this`model, this`generator
      ensures old(model).None? ==>
        tokenizer == Some(modelName) && model == Some(modelName) && generator == Some(modelName)
      ensures old(model).Some? ==>
        tokenizer == old(tokenizer) && model == old(model) && generator == old(generator)
    {
      if model.None? {
        tokenizer := Some(modelName);
        model := Some(modelName);
        generator := Some(modelName);
      }
    }

    /** `generate_response`: loads the model if needed, then asks the sampler
        about the prompt built from the truncated context. */
    method GenerateResponse(query: string, docs: seq<Retrieved>, maxLength: int,
                            sample: (string, string, int) -> Result<string>)
      returns (r: Result<Generation>)
      modifies this`tokenizer, this`model, this`generator
      ensures old(model).None? ==>
        tokenizer == Some(modelName) && model == Some(modelName) && generator == Some(modelName)
      ensures old(model).Some? ==>
        tokenizer == old(tokenizer) && model == old(model) && generator == old(generator)
      ensures r == Answer(modelName, query, docs, maxLength, sample)
    {
      LoadModel();
      var context := Context(docs);
      if |context| > CONTEXT_LIMIT {
        context := context[..CONTEXT_LIMIT] + ELLIPSIS;
      }
      assert context == Truncate(Context(docs));
      var prompt := Prompt(context, query);
      var reply := sample(modelName, prompt, maxLength);
      assert reply == sample(modelName, Prompt(Truncate(Context(docs)), query), maxLength);
      if reply.Err? {
        return Err(reply.error);
      }
      r := Ok(Generation(reply.value, query, |docs|, modelName));
    }
  }
}
