/** The question-answering service: answers from the cache of earlier
    answers when a cached question is close enough, and otherwise asks the
    language model, with the corpus documents nearest to the question as
    context when the model says the question needs them. */
module QA {
  import opened Wrappers
  import opened Strings
  import opened Documents
  import Sequences
  import Reader
  import opened Retrieval

  /** A chat message: the system prompt or the user's turn. */
  datatype Message = System(content: string) | Human(content: string)

  /** The language model: the text of its reply to a prompt, and the
      contents of the chunks it streams for a conversation, `None` for a
      chunk without content. */
  datatype Llm = Llm(invoke: string -> string, stream: seq<Message> -> seq<Option<string>>)

  /** The prompt templates of the configuration, each with its one
      placeholder filled in. */
  datatype Prompts = Prompts(intent: string -> string, system: string -> string, user: string -> string)

  /** The similarity of a question to a text that the metric evaluator
      computes. */
  type Score = (string, string) -> real

  // ---------------------------------------------------------------------
  // detect_intent
  // ---------------------------------------------------------------------

  /** Whether the question needs corpus context, given the model's reply to
      the intent prompt: it does unless the lower-cased reply starts with
      "да". */
  function DetectIntent(reply: string): (needsContext: bool)
    ensures !needsContext <==> |reply| >= 2 && (reply[0] == 'Д' || reply[0] == 'д') && (reply[1] == 'А' || reply[1] == 'а')
  {
    var lowered := Lower(reply);
    assert |reply| >= 2 ==> lowered[..2] == [lowered[0], lowered[1]];
    !StartsWith(lowered, "да")
  }

  /** The reply of the stub model, "да", means no context is needed; an
      empty reply means it is. */
  lemma DetectIntentExamples()
    ensures !DetectIntent("да") && !DetectIntent("Да, конечно")
    ensures DetectIntent("") && DetectIntent("нет")
  {
  }

  // ---------------------------------------------------------------------
  // get_cached_answer
  // ---------------------------------------------------------------------

  /** `document.metadata.get('answer')`. */
  function AnswerOf(d: Document): (v: Value)
    ensures "answer" in d.metadata ==> v == d.metadata["answer"]
    ensures "answer" !in d.metadata ==> v == Null
  {
    if "answer" in d.metadata then d.metadata["answer"] else Null
  }

  /** `[document.metadata.get('answer') for document in documents]`. */
  function Answers(documents: seq<Document>): (r: seq<Value>)
    ensures |r| == |documents| && forall i :: 0 <= i < |documents| ==> r[i] == AnswerOf(documents[i])
  {
    seq(|documents|, i requires 0 <= i < |documents| => AnswerOf(documents[i]))
  }

  /** The outcome of a cache lookup that found `documents`: the empty list
      when it found nothing, `None` when nothing it found passes the
      relevance test, and otherwise the answers of the documents that pass,
      in order. */
  function CachedAnswer(documents: seq<Document>, relevant: Document -> bool): (r: Option<seq<Value>>)
    ensures r == Some([]) <==> documents == []
    ensures r == None <==> documents != [] && forall i :: 0 <= i < |documents| ==> !relevant(documents[i])
    ensures r.Some? ==> var kept := Sequences.Filter(documents, relevant);
      |r.value| == |kept| && forall i :: 0 <= i < |kept| ==> r.value[i] == AnswerOf(kept[i])
  {
    Sequences.FilterEmpty(documents, relevant);
    if documents == [] then Some([])
    else
      var kept := Sequences.Filter(documents, relevant);
      if kept == [] then None
      else Some(Answers(kept))
  }

  // ---------------------------------------------------------------------
  // get_llm_answer
  // ---------------------------------------------------------------------

  /** The context handed to the model: the contents of the documents,
      separated by blank lines. */
  function Context(documents: seq<Document>): (r: string)
    ensures documents == [] ==> r == ""
    ensures |documents| == 1 ==> r == documents[0].content
  {
    Join("\n\n", seq(|documents|, i requires 0 <= i < |documents| => documents[i].content))
  }

  /** The context holds every content and two characters between each two
      neighbours. */
  lemma ContextLength(documents: seq<Document>)
    requires documents != []
    ensures var contents := seq(|documents|, i requires 0 <= i < |documents| => documents[i].content);
      |Context(documents)| == TotalLength(contents) + 2 * (|documents| - 1)
  {
    JoinLength("\n\n", seq(|documents|, i requires 0 <= i < |documents| => documents[i].content));
  }

  /** One more document adds a blank line and its content to the context. */
  lemma ContextSnoc(documents: seq<Document>, d: Document)
    requires documents != []
    ensures Context(documents + [d]) == Context(documents) + "\n\n" + d.content
  {
    var contents := seq(|documents|, i requires 0 <= i < |documents| => documents[i].content);
    assert seq(|documents + [d]|, i requires 0 <= i < |documents + [d]| => (documents + [d])[i].content) == contents + [d.content];
    JoinSnoc("\n\n", contents, d.content);
  }

  /** `response.content or ''`. */
  function ChunkText(chunk: Option<string>): (text: string)
    ensures chunk.None? ==> text == ""
    ensures chunk.Some? ==> text == chunk.value
  {
    if chunk.Some? then chunk.value else ""
  }

  /** The streamed chunks one after the other, a chunk without content
      counting as empty. */
  function Concat(chunks: seq<Option<string>>): (r: string)
    ensures chunks == [] ==> r == ""
    ensures |chunks| == 1 ==> r == ChunkText(chunks[0])
  {
    if chunks == [] then ""
    else Concat(chunks[..|chunks| - 1]) + ChunkText(chunks[|chunks| - 1])
  }

  /** Concatenating two runs of chunks concatenates their texts. */
  lemma {:induction false} ConcatAppend(a: seq<Option<string>>, b: seq<Option<string>>)
    ensures Concat(a + b) == Concat(a) + Concat(b)
    decreases |b|
  {
    if b == [] {
      assert a + b == a;
    } else {
      assert (a + b)[..|a + b| - 1] == a + b[..|b| - 1];
      ConcatAppend(a, b[..|b| - 1]);
    }
  }

  /** The text is as long as all chunk texts together. */
  lemma {:induction false} ConcatLength(chunks: seq<Option<string>>)
    ensures |Concat(chunks)| == TotalLength(seq(|chunks|, i requires 0 <= i < |chunks| => ChunkText(chunks[i])))
    decreases |chunks|
  {
    if chunks != [] {
      var texts := seq(|chunks|, i requires 0 <= i < |chunks| => ChunkText(chunks[i]));
      var rest := seq(|chunks| - 1, i requires 0 <= i < |chunks| - 1 => ChunkText(chunks[1..][i]));
      assert chunks == [chunks[0]] + chunks[1..];
      ConcatAppend([chunks[0]], chunks[1..]);
      assert Concat([chunks[0]]) == ChunkText(chunks[0]) by {
        assert [chunks[0]][..0] == [];
      }
      assert texts[1..] == rest;
      ConcatLength(chunks[1..]);
    }
  }

  /** The stream loop of `get_llm_answer`: the chunk texts accumulated in
      order. */
  method Accumulate(chunks: seq<Option<string>>) returns (result: string)
    ensures result == Concat(chunks)
  {
    result := "";
    for n := 0 to |chunks|
      invariant result == Concat(chunks[..n])
    {
      assert chunks[..n + 1][..n] == chunks[..n];
      result := result + ChunkText(chunks[n]);
    }
    assert chunks[..|chunks|] == chunks;
  }

  /** The characters of the answer label, which `strip('Ответ:')` removes
      from both ends. */
  predicate InAnswerLabel(c: char) {
    c in "Ответ:"
  }

  /** `result.strip('Ответ:')`. */
  function CleanAnswer(s: string): (r: string)
    ensures |r| <= |s|
    ensures r != [] ==> !InAnswerLabel(r[0]) && !InAnswerLabel(r[|r| - 1])
  {
    Strip(s, InAnswerLabel)
  }

  /** The clean answer is a contiguous part of the text, and everything cut
      off is a label character. */
  lemma CleanAnswerSpec(s: string)
    ensures var r, i := CleanAnswer(s), LeadLen(s, InAnswerLabel);
      i + |r| <= |s| && r == s[i..i + |r|] &&
      (forall k :: 0 <= k < i ==> InAnswerLabel(s[k])) &&
      (forall k :: i + |r| <= k < |s| ==> InAnswerLabel(s[k]))
  {
    StripIsInfix(s, InAnswerLabel);
  }

  /** Cleaning a clean answer changes nothing. */
  lemma CleanAnswerIdempotent(s: string)
    ensures CleanAnswer(CleanAnswer(s)) == CleanAnswer(s)
  {
    StripIdempotent(s, InAnswerLabel);
  }

  /** The stub model's chunk loses its trailing label and nothing else. */
  lemma CleanAnswerOfStub()
    ensures CleanAnswer("Это пример ответа от модели. Ответ:") == "Это пример ответа от модели. "
  {
    var text, tail := "Это пример ответа от модели. ", "Ответ:";
    assert text + tail == "Это пример ответа от модели. Ответ:";
    assert forall k :: 0 <= k < |tail| ==> InAnswerLabel(tail[k]);
    StripTrailing(text, tail, InAnswerLabel);
  }

  // ---------------------------------------------------------------------
  // set_cache
  // ---------------------------------------------------------------------

  /** The cache entry for one question and its answer. */
  function CacheEntry(pair: (string, string)): (d: Document)
    ensures d.content == pair.0 && d.metadata == map["answer" := Str(pair.1)]
  {
    Document(pair.0, map["answer" := Str(pair.1)])
  }

  /** The loop of `set_cache`: one cache entry per question-answer pair, in
      the order of the pairs. */
  method CacheDocuments(pairs: seq<(string, string)>) returns (documents: seq<Document>)
    ensures |documents| == |pairs|
    ensures forall i :: 0 <= i < |pairs| ==>
      documents[i].content == pairs[i].0 && documents[i].metadata == map["answer" := Str(pairs[i].1)]
  {
    documents := [];
    for n := 0 to |pairs|
      invariant |documents| == n
      invariant forall i :: 0 <= i < n ==> documents[i] == CacheEntry(pairs[i])
    {
      documents := documents + [CacheEntry(pairs[n])];
    }
  }

  // ---------------------------------------------------------------------
  // The service
  // ---------------------------------------------------------------------

  class QAService {
    /** The index of earlier questions with their answers. */
    const cache: Retriever
    /** The index of the corpus documents. */
    const corpus: Retriever
    const score: Score
    const threshold: real
    const llm: Llm
    const prompts: Prompts

    /** The corpus has a view that returns the configured number of
        documents, and the two indexes are different objects. */
    ghost predicate Valid()
      reads corpus
    {
      cache != corpus && corpus.view.Some? && corpus.view.value.k == corpus.kSearch
    }

    /** A document is relevant to a question when its similarity score is
        strictly above the threshold. */
    predicate Relevant(question: string, d: Document) {
      score(question, d.content) > threshold
    }

    /** The relevance test for one question, as a function value. */
    function RelevantTo(question: string): Document -> bool {
      d => Relevant(question, d)
    }

    /** Whether the question needs corpus context, by the model's reply to
        the intent prompt. */
    function NeedsContext(question: string): (needed: bool)
      ensures var reply := llm.invoke(prompts.intent(question));
        !needed <==> |reply| >= 2 && (reply[0] == 'Д' || reply[0] == 'д') && (reply[1] == 'А' || reply[1] == 'а')
    {
      DetectIntent(llm.invoke(prompts.intent(question)))
    }

    /** The system prompt with the context, then the user prompt with the
        question. */
    function Conversation(context: string, question: string): (messages: seq<Message>)
      ensures |messages| == 2 && messages[0].System? && messages[1].Human?
      ensures messages[0].content == prompts.system(context) && messages[1].content == prompts.user(question)
    {
      [System(prompts.system(context)), Human(prompts.user(question))]
    }

    /** Both indexes are loaded from disk. The cache gets a view only if it
        had a store to load; the corpus, when nothing was on disk, is built
        from the documents read from the data files, and always gets a
        view. */
    constructor(kSearch: nat, score: Score, threshold: real, llm: Llm, prompts: Prompts, rank: Ranking,
                cacheDisk: Option<seq<Document>>, corpusDisk: Option<seq<Document>>, files: seq<Reader.File>)
      ensures Valid() && fresh(cache) && fresh(corpus)
      ensures this.score == score && this.threshold == threshold && this.llm == llm && this.prompts == prompts
      ensures cache.rank == rank && corpus.rank == rank && cache.kSearch == kSearch && corpus.kSearch == kSearch
      ensures cache.store == cacheDisk && cache.disk == cacheDisk
      ensures cache.view == (if cacheDisk.Some? then Some(View(cacheDisk.value, kSearch)) else None)
      ensures corpus.store == Some(if corpusDisk.Some? then corpusDisk.value else Reader.DocumentsOf(files))
      ensures corpus.disk == corpus.store && corpus.view == Some(View(corpus.store.value, kSearch))
      ensures cache.queries == [] && corpus.queries == []
    {
      this.score := score;
      this.threshold := threshold;
      this.llm := llm;
      this.prompts := prompts;
      cache := new Retriever(kSearch, rank, cacheDisk);
      corpus := new Retriever(kSearch, rank, corpusDisk);
      new;
      cache.Load();
      if cache.store.Some? {
        var _ := cache.Setup();
      }
      corpus.Load();
      if corpus.store.None? {
        var documents := Reader.ReadDocuments(files);
        corpus.Build(documents);
      }
      var _ := corpus.Setup();
    }

    /** `filter_based_on_metric`: the relevant documents, in order. */
    method FilterBasedOnMetric(question: string, documents: seq<Document>) returns (result: seq<Document>)
      ensures result == Sequences.Filter(documents, RelevantTo(question))
    {
      result := [];
      for n := 0 to |documents|
        invariant result == Sequences.Filter(documents[..n], RelevantTo(question))
      {
        assert documents[..n + 1][..n] == documents[..n];
        if score(question, documents[n].content) > threshold {
          assert RelevantTo(question)(documents[n]);
          result := result + [documents[n]];
        }
      }
      assert documents[..|documents|] == documents;
    }

    /** The filter keeps, in their order, exactly the documents whose score
        is strictly above the threshold; a score equal to it is dropped. */
    lemma FilterExact(question: string, documents: seq<Document>)
      ensures var r, idx := Sequences.Filter(documents, RelevantTo(question)),
                            Sequences.KeptIndices(documents, RelevantTo(question));
        |idx| == |r| &&
        (forall k :: 0 <= k < |idx| ==> r[k] == documents[idx[k]]) &&
        (forall i :: 0 <= i < |documents| ==> (i in idx <==> score(question, documents[i].content) > threshold))
    {
      Sequences.FilterIsSubsequence(documents, RelevantTo(question));
    }

    /** `get_cached_answer`: the cache's view answers the question (a truthy
        `k` overriding its `k` for good), and the relevant answers come
        back; without a cache view the call fails. */
    method GetCachedAnswer(question: string, k: Option<nat>) returns (r: Result<Option<seq<Value>>>)
      modifies cache
      ensures old(cache.view).None? ==> r == Err(NoRetriever) && cache.view == old(cache.view)
      ensures old(cache.view).Some? ==> cache.view == Some(WithK(old(cache.view).value, k))
      ensures old(cache.view).Some? ==>
        r == Ok(CachedAnswer(Nearest(cache.rank, cache.view.value.docs, question, cache.view.value.k),
                             RelevantTo(question)))
      ensures cache.store == old(cache.store) && cache.disk == old(cache.disk)
      ensures cache.queries == old(cache.queries) + (if old(cache.view).Some? then [question] else [])
    {
      var found := cache.Get(question, k);
      if found.Err? {
        return Err(found.error);
      }
      var documents := found.value;
      if documents != [] {
        documents := FilterBasedOnMetric(question, documents);
        Sequences.FilterEmpty(found.value, RelevantTo(question));
        if documents == [] {
          return Ok(None);
        }
      }
      r := Ok(Some(Answers(documents)));
    }

    /** `get_llm_answer`: the corpus is queried only when the intent check
        says context is needed; the model's streamed answer is accumulated
        and stripped of the answer label. */
    method GetLlmAnswer(question: string) returns (answer: string)
      requires Valid()
      modifies corpus
      ensures Valid() && corpus.view == old(corpus.view)
      ensures corpus.store == old(corpus.store) && corpus.disk == old(corpus.disk)
      ensures corpus.queries == old(corpus.queries) + (if NeedsContext(question) then [question] else [])
      ensures var context := if NeedsContext(question)
        then Context(Nearest(corpus.rank, corpus.view.value.docs, question, corpus.view.value.k)) else "";
        answer == CleanAnswer(Concat(llm.stream(Conversation(context, question))))
    {
      var context := "";
      if DetectIntent(llm.invoke(prompts.intent(question))) {
        var found := corpus.Get(question, None);
        context := Context(found.value);
      }
      var messages := Conversation(context, question);
      var result := Accumulate(llm.stream(messages));
      answer := CleanAnswer(result);
    }

    /** `set_cache`: one entry per question-answer pair, in order, merged into
        the cache in a single `set`, which also resets the cache view. */
    method SetCache(pairs: seq<(string, string)>)
      modifies cache
      ensures var entries := seq(|pairs|, i requires 0 <= i < |pairs| => CacheEntry(pairs[i]));
        cache.store == Some(Merged(old(cache.store), entries)) && cache.disk == cache.store &&
        cache.view == Some(View(cache.store.value, cache.kSearch))
      ensures cache.queries == old(cache.queries)
    {
      var documents := CacheDocuments(pairs);
      assert documents == seq(|pairs|, i requires 0 <= i < |pairs| => CacheEntry(pairs[i]));
      cache.Set(documents);
    }
  }

  // ---------------------------------------------------------------------
  // The service with the stub model
  // ---------------------------------------------------------------------

  /** The stub model: it always replies "да" and streams one fixed chunk. */
  const StubLlm: Llm := Llm(prompt => "да", messages => [Some("Это пример ответа от модели. Ответ:")])

  /** With the stub model the corpus is never queried, and the answer is the
      stub's chunk without its trailing label. */
  method StubAnswer(kSearch: nat, score: Score, threshold: real, prompts: Prompts, rank: Ranking,
                    cacheDisk: Option<seq<Document>>, corpusDisk: Option<seq<Document>>,
                    files: seq<Reader.File>, question: string)
    returns (answer: string, ghost corpusQueries: seq<string>)
    ensures answer == "Это пример ответа от модели. " && corpusQueries == []
  {
    var service := new QAService(kSearch, score, threshold, StubLlm, prompts, rank, cacheDisk, corpusDisk, files);
    answer := service.GetLlmAnswer(question);
    corpusQueries := service.corpus.queries;
    var chunks := StubLlm.stream([]);
    assert Concat(chunks) == "Это пример ответа от модели. Ответ:" by {
      assert chunks[..0] == [];
    }
    CleanAnswerOfStub();
  }
}
