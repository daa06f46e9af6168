# SHIFT-RAG question answering, modelled in Dafny

SHIFT-RAG answers questions in two steps. First it looks for a close enough
question in a cache of earlier questions and their answers. Failing that, it
asks a language model, giving it the nearest corpus passages as context
whenever the model says the question needs them. This project models the
three services at the core of that flow and proves what they promise:

- `QAService` (module `QA`, class `QA.QAService`) runs the flow:
  - the relevance filter on similarity scores;
  - the cached-answer lookup with its three outcomes;
  - the intent check on the model's reply;
  - the context join and the accumulation of the streamed answer;
  - the strip of the answer label;
  - the batched cache write;
  - the start-up sequence that loads, builds and sets up both indexes.
- `Retriever` (module `Retrieval`, class `Retrieval.Retriever`) wraps a
  vector store. Its state is an optional store of documents, an optional
  query view with its `k`, and the copy saved on disk. The nearest-neighbour
  search is a ranking function passed in. A ghost history of the questions
  the view has answered makes "the corpus is not queried" statable.
- `Reader` (module `Reader`) turns the corpus files into documents:
  - a leftmost, backtracking matcher for the metadata pattern
    ` Metadata\s*link: (https?://[^\s]+)\s*date: (\d{2}-\d{4})`;
  - `strptime` with `%d-%m-%Y`;
  - `str.replace` and `str.strip`;
  - the loop over the walked files.

Supporting modules:

- `Strings`: Python's `strip`, `replace(p, '')`, `join` and a restricted
  `lower`.
- `Sequences`: order-preserving filtering, with the lemmas every
  filter-by-loop in the services relies on.
- `Documents`: the document and metadata-value types.
- `Wrappers`: `Option` and `Result`.

The language model, the similarity metric, the prompt templates, the
directory walk and the on-disk index are parameters of the model.

## Where the model follows the code rather than the service's documentation

- **Cache lookup on an empty cache.** With nothing on disk, the cache has
  no view at start-up (`app/services/QAService.py:47-49`), and gets one only
  with the first `set_cache` (`app/services/Retriever.py:74-80`, proved as
  `Retrieval.SetCreates`). Until then `get_cached_answer` fails on the
  missing view. It does not answer "no match".
  `QA.QAService.GetCachedAnswer` returns `Err(NoRetriever)` in that case.
- **Cache query that finds nothing.** The lookup returns the empty list,
  which differs from the `None` returned when every candidate is below the
  threshold.
- **Metadata dates never parse.** The date group of the pattern is
  `\d{2}-\d{4}`, which has one dash. `strptime` with `%d-%m-%Y` needs two,
  so every metadata block yields the date `None` (`Reader.DateGroup`).
- **A `dd-mm-yyyy` date defeats the pattern.** A block whose date is written
  `dd-mm-yyyy` does not match the pattern at all. The text then comes back
  whole, with empty metadata.

## Model

| member | source | states |
|---|---|---|
| Sequences.Filter | app/services/QAService.py:85-92 | the kept list is no longer than the input, and every kept element comes from the input and passes the test |
| Sequences.FilterIsSubsequence | app/services/QAService.py:85-92 | the kept list is exactly the input's elements at the passing positions, in increasing position order, and no position that fails is kept |
| Sequences.FilterKeepsPassing | app/services/QAService.py:87-90 | every element that passes is kept |
| Sequences.FilterAppend | app/services/QAService.py:87-90 | filtering a concatenation is the concatenation of the filtered parts |
| Sequences.FilterEmpty | app/services/QAService.py:108-110 | nothing is kept exactly when no element passes |
| QA.QAService.FilterBasedOnMetric | app/services/QAService.py:85-92 | the loop returns the order-preserving filter of the documents by "score strictly above the threshold" |
| QA.QAService.FilterExact | app/services/QAService.py:85-92 | the result is the subsequence at exactly the positions whose score is strictly above the threshold; a score equal to the threshold is dropped |
| QA.AnswerOf | app/services/QAService.py:112 | a document's `answer` metadata, or `None` when the key is missing |
| QA.Answers | app/services/QAService.py:112 | one answer per document, in the same order |
| QA.CachedAnswer | app/services/QAService.py:105-112 | the empty list exactly when the query found nothing; `None` exactly when it found documents but none passes; otherwise the answers of the passing documents, same number and order |
| QA.QAService.GetCachedAnswer | app/services/QAService.py:105-112 | without a cache view the call fails and nothing is queried; otherwise the cache is queried once, a truthy `k` overrides the view's `k`, and the result is `CachedAnswer` of the nearest cached documents |
| QA.DetectIntent | app/services/QAService.py:71-72 | context is not needed iff the reply starts with `Д`/`д` followed by `А`/`а`, i.e. the lower-cased reply starts with "да"; an empty or other reply needs context |
| QA.QAService.NeedsContext | app/services/QAService.py:71-72 | for the model's reply to the intent prompt of the question, context is not needed iff the reply starts with `Д`/`д` followed by `А`/`а` |
| Strings.Lower | app/services/QAService.py:71 | lower-casing keeps the length and maps each character by `LowerChar` |
| QA.DetectIntentExamples | app/services/LLM.py:65 | the stub reply "да" needs no context; an empty reply does |
| Strings.LowerChar | app/services/QAService.py:71 | only Latin and Cyrillic capitals are changed by lower-casing |
| QA.Context | app/services/QAService.py:127 | no documents give the empty context; one document gives its content |
| Strings.Join | app/services/QAService.py:127 | no parts give the empty text, one part gives itself, and more parts start with the first part and the separator; the length and the step are `Strings.JoinLength` and `Strings.JoinSnoc` |
| QA.ContextLength | app/services/QAService.py:127 | the context is as long as all contents plus two characters per gap between neighbours |
| QA.ContextSnoc | app/services/QAService.py:127 | one more document appends a blank line and its content |
| Strings.JoinLength | app/services/QAService.py:127 | a join holds every part and one separator between neighbours |
| Strings.JoinSnoc | app/services/QAService.py:127 | joining one more part appends the separator and the part |
| QA.QAService.Conversation | app/services/QAService.py:129-132 | the conversation is exactly two messages: the system prompt filled with the context, then the user prompt filled with the question |
| QA.ChunkText | app/services/QAService.py:136 | a chunk with content contributes that content, and a chunk without content contributes the empty text |
| QA.Concat | app/services/QAService.py:134-136 | no chunks give the empty text, and one chunk gives its text; with `QA.ConcatAppend` this fixes the text to the chunk texts in stream order |
| QA.ConcatAppend | app/services/QAService.py:134-136 | the text of two runs of chunks is the concatenation of their texts |
| QA.ConcatLength | app/services/QAService.py:134-136 | the accumulated text is as long as all chunk contents together, a chunk without content adding nothing |
| QA.Accumulate | app/services/QAService.py:134-136 | the stream loop's result is the in-order concatenation of the chunk contents |
| Strings.Strip | app/services/QAService.py:137 | the result is no longer than the input, and neither of its ends is a stripped character |
| Strings.StripIsInfix | app/services/QAService.py:137 | the result is a contiguous block of the input, and everything cut off at either end is a stripped character |
| Strings.StripIdempotent | app/services/QAService.py:137 | stripping twice equals stripping once |
| Strings.StripNoop | app/services/Reader.py:43-44 | a text whose ends are kept characters is left unchanged |
| Strings.StripTrailing | app/services/QAService.py:137 | a text with kept ends, followed by stripped characters only, strips to itself |
| QA.CleanAnswer | app/services/QAService.py:137 | the cleaned answer is no longer than the text, and neither end is one of О, т, в, е, : |
| QA.CleanAnswerSpec | app/services/QAService.py:137 | the cleaned answer is a contiguous part of the accumulated text, and everything cut off at either end is a label character |
| QA.CleanAnswerIdempotent | app/services/QAService.py:137 | cleaning a cleaned answer changes nothing |
| QA.CleanAnswerOfStub | app/services/LLM.py:82 | the stub's chunk "Это пример ответа от модели. Ответ:" cleans to "Это пример ответа от модели. " |
| QA.QAService.GetLlmAnswer | app/services/QAService.py:124-139 | the corpus is queried, once and with its default `k`, iff the intent check says context is needed; the context is the join of the nearest documents, else empty; the answer is the cleaned concatenation of the chunks streamed for that conversation |
| QA.StubAnswer | app/services/QAService.py:124-139 | with the stub model, a freshly started service answers "Это пример ответа от модели. ", and the corpus's history of queries stays empty |
| QA.CacheEntry | app/services/QAService.py:150-153 | a cache entry has the question as content and metadata exactly `{answer}` |
| QA.CacheDocuments | app/services/QAService.py:148-154 | exactly one entry per pair, in order, with the question as content and metadata exactly `{answer: answer}` |
| QA.QAService.SetCache | app/services/QAService.py:148-156 | one `set` merges the entries of all pairs, in order, into the cache, saves it and resets the cache view to `k_search` |
| QA.QAService.constructor | app/services/QAService.py:32-58 | the cache is loaded and gets a view only when a store was loaded; the corpus is loaded, or else built from the read documents and saved; it always ends with a view with `k_search` |
| Retrieval.Retriever.constructor | app/services/Retriever.py:26-32 | a fresh retriever has no store and no view |
| Retrieval.Retriever.Setup | app/services/Retriever.py:34-38 | installs a view over the current store with `k_search`; fails without a store |
| Retrieval.Retriever.Build | app/services/Retriever.py:40-48 | the store is exactly the given documents, and the saved copy equals it |
| Retrieval.Retriever.Load | app/services/Retriever.py:50-58 | the store becomes the saved copy when there is one; otherwise it stays as it was and nothing fails |
| Retrieval.Retriever.Save | app/services/Retriever.py:60-64 | the saved copy becomes the store; fails without a store |
| Retrieval.Merged | app/services/Retriever.py:73-77 | the merged store is the old documents followed by the new ones, duplicates kept, or the new ones alone |
| Retrieval.Retriever.Set | app/services/Retriever.py:66-80 | the store becomes the merge, the saved copy equals it, and the view is rebuilt with `k_search` |
| Retrieval.WithK | app/services/Retriever.py:93-94 | a truthy `k` replaces the view's `k`; `None` and `0` keep it; the documents are untouched |
| Retrieval.Retriever.Get | app/services/Retriever.py:82-96 | fails without a view; otherwise the view's `k` is overridden by a truthy `k` for good, and the answer is the nearest documents for that `k` |
| Retrieval.Ranked | app/services/Retriever.py:96 | the ranked documents all come from the store |
| Retrieval.TopK | app/services/Retriever.py:96 | at most `k` documents, all from the store |
| Retrieval.Nearest | app/services/Retriever.py:96 | a query returns at most `k` documents, all from the store |
| Retrieval.TopKIsPrefix | app/services/Retriever.py:96 | a query returns the first `k` documents of the ranking, or all when there are fewer |
| Retrieval.NearestMonotone | app/services/Retriever.py:93-96 | a smaller `k` returns a prefix of the answer for a larger one |
| Retrieval.FreshHasNothing | app/services/Retriever.py:31-32 | on a fresh retriever a query fails, and `setup` fails when nothing was on disk |
| Retrieval.KSticks | app/services/Retriever.py:93-94 | a `k` passed once also governs later queries without `k` |
| Retrieval.SetResetsK | app/services/Retriever.py:73-80 | after `set`, queries use `k_search` again over the old documents followed by the new ones, and the saved copy equals that store |
| Retrieval.SetCreates | app/services/Retriever.py:74-77 | `set` without a store makes the new documents the store |
| Retrieval.BuildThenLoad | app/services/Retriever.py:40-58 | whatever copy was on disk before, after `build` a `load` reads back exactly the built documents, and the saved copy equals them |
| Reader.LinkEnd | app/services/Reader.py:23 | the backtracking of `[^\s]+` picks a link end inside the scanned run, followed by room for the date label and the date group; `Reader.LinkEndSpec` and `Reader.LinkEndReaches` give what it accepts and that it is the longest |
| Reader.MatchAt | app/services/Reader.py:23 | a match tried at a position starts there and fits in the text; `Reader.MatchAtSound` and `Reader.MatchAtCompleteAt` tie it to the pattern |
| Reader.Search | app/services/Reader.py:39 | a found match starts no earlier than the search start and fits in the text; `Reader.SearchSound` and `Reader.SearchLeftmost` tie it to the pattern |
| Reader.SkipWs | app/services/Reader.py:23 | greedy `\s*` ends inside the text, no earlier than it starts; `Reader.SkipWsSpec` and `Reader.SkipWsExact` give what it consumes |
| Reader.SkipNonWs | app/services/Reader.py:23 | greedy `[^\s]*` ends inside the text, no earlier than it starts; `Reader.SkipNonWsSpec` and `Reader.SkipNonWsReaches` give what it consumes |
| Reader.SchemeEnd | app/services/Reader.py:23 | `https?://` ends inside the text when it is found; `Reader.SchemeOfLink` ties it to the link shape |
| Reader.DateAfter | app/services/Reader.py:23 | a found date part leaves room for `date: ` before the date group and seven characters for it; `Reader.DateAfterSpec` gives what it accepts |
| Reader.LinkAndDate | app/services/Reader.py:23 | a found link is not empty and is followed by the date label and the date group; `Reader.LinkAndDateSpec` and `Reader.LinkAndDateComplete` tie it to the pattern |
| Reader.SkipWsSpec | app/services/Reader.py:23 | `\s*` consumes a run of whitespace that stops at a non-space or at the end |
| Reader.SkipNonWsSpec | app/services/Reader.py:23 | `[^\s]+` first consumes a run without whitespace |
| Reader.DateAfterSpec | app/services/Reader.py:23 | the date part, when it matches, is whitespace, `date: ` and a two-digit, dash, four-digit group |
| Reader.SkipWsExact | app/services/Reader.py:23 | a run of whitespace that stops at a non-space or at the end is exactly what `\s*` consumes |
| Reader.SkipNonWsReaches | app/services/Reader.py:23 | `[^\s]*` consumes at least every run without whitespace |
| Reader.SchemeOfLink | app/services/Reader.py:23 | a text of the link shape starts with a scheme that `https?://` consumes, followed by at least one character and no whitespace |
| Reader.LinkAndDateComplete | app/services/Reader.py:23 | whenever a link and the date part can follow, they are found, with a link at least as long |
| Reader.LinkEndSpec | app/services/Reader.py:23 | the link end chosen by backtracking lets the date part match |
| Reader.LinkEndReaches | app/services/Reader.py:23 | backtracking finds the longest link after which the date part matches |
| Reader.LinkAndDateSpec | app/services/Reader.py:23 | a found link starts with `http://` or `https://` and has no whitespace, and the date part follows it |
| Reader.MatchAtSound | app/services/Reader.py:23 | whatever the matcher finds at a position is a match of the pattern |
| Reader.MatchAtCompleteAt | app/services/Reader.py:23 | whenever the pattern matches at a position, the matcher finds a match there with a link at least as long |
| Reader.SearchSound | app/services/Reader.py:39 | what the search finds is a match of the pattern |
| Reader.SearchReaches | app/services/Reader.py:39 | the search finds a match that starts no later than any given match, with a link at least as long when both start at the same place |
| Reader.SearchLeftmost | app/services/Reader.py:39 | the search finds the leftmost match, with the longest link among those starting there, and finds nothing only when there is no match |
| Reader.ParseDate | app/services/Reader.py:45-48 | a parsed date is a real calendar day, and parsing succeeds only on text with two dashes |
| Reader.DateGroupUnparsable | app/services/Reader.py:44-48 | a two-digit, dash, four-digit text never parses with `%d-%m-%Y` |
| Reader.ParseDateExample | app/services/Reader.py:46 | "15-03-2024" parses to 15 March 2024 |
| Reader.ParseDateNoSuchDay | app/services/Reader.py:45-48 | "29-02-2023" is rejected |
| Reader.BlockMetadata | app/services/Reader.py:49-52 | the metadata of a block has exactly the keys `link` and `date` |
| Reader.SplitOff | app/services/Reader.py:41-53 | on a match, the clean text is shorter than the input by at least the block and has no whitespace at either end, and the map has exactly the keys `link` and `date` |
| Reader.ExtractMetadata | app/services/Reader.py:39-54 | the metadata is empty iff the search finds no block, and then the text comes back unchanged; otherwise the clean text is shorter |
| Reader.ExtractNoMatch | app/services/Reader.py:39-54 | the text comes back unchanged with empty metadata iff the pattern matches nowhere |
| Reader.ExtractUsesLeftmost | app/services/Reader.py:39-41 | the block cut out is a match that starts with ` Metadata` and starts no later than any other match |
| Reader.LinkShapeIsLink | app/services/Reader.py:23 | a link group starts with `http://` or `https://`, is longer than that, and holds no whitespace |
| Reader.LinkGroup | app/services/Reader.py:43 | stripping the link group changes nothing |
| Reader.DateGroup | app/services/Reader.py:44-48 | on a match, the date is always `None` |
| Reader.ExtractFound | app/services/Reader.py:43-52 | on a match, the metadata is exactly `{link: <the whole link group>, date: None}`; the link has the link shape, and the date group is two digits, a dash and four digits |
| Reader.ExtractClean | app/services/Reader.py:41-42 | the clean text is the input with every occurrence of the block deleted, then whitespace-stripped; it is shorter by at least the block, and neither end is whitespace |
| Strings.RemoveAll | app/services/Reader.py:42 | deleting every occurrence never lengthens the text, and a text shorter than the block is unchanged; `Strings.RemoveAllFirst` and `Strings.RemoveAllAbsent` fix it to find, delete and resume |
| Strings.RemoveAllFirst | app/services/Reader.py:42 | the scan keeps everything before the first occurrence, deletes that occurrence and carries on right after it, so occurrences are deleted left to right without overlap |
| Strings.RemoveAllShrinks | app/services/Reader.py:42 | deleting occurrences never lengthens the text, and shortens it by at least the block's length when the block occurs |
| Strings.RemoveAllAbsent | app/services/Reader.py:42 | deleting a block that does not occur changes nothing |
| Reader.DocumentOf | app/services/Reader.py:73-78 | the document made from a file has no longer content than the file, empty metadata iff the pattern is not found, and otherwise exactly the keys `link` and `date` |
| Reader.DocumentsOf | app/services/Reader.py:69-79 | at most one document per walked file, and none when no file is Markdown; `Reader.DocumentsOfMarkdown` gives the exact list |
| Reader.ReadDocuments | app/services/Reader.py:69-79 | the loop returns the documents of the walked files, in walk order |
| Reader.DocumentsOfMarkdown | app/services/Reader.py:69-79 | there is exactly one document per `.md` file, made by `extract_metadata` from its contents, in walk order |
| Reader.MarkdownExact | app/services/Reader.py:71-72 | a file is read iff its name ends in `.md`, in walk order |

## Left out

- The similarity metric (`app/services/MetricEvaluator.py`) is a parameter
  `score`. Its lexical and semantic cosine similarities are floating point
  and are not modelled, nor is its 0.5/0.5 weighting.
- The language model (`app/services/LLM.py`) is a parameter. `invoke` gives
  the reply text and `stream` the chunk contents. The stub's two constants
  appear only in example lemmas.
- `QA.QAService.GetLlmAnswer`: `invoke` and `stream` are taken as
  deterministic functions of the prompt and of the messages. A real model
  can reply differently to the same prompt, and every `stream` call yields
  a fresh sequence of chunks, so two calls with the same question need not
  give the same answer.
- The prompt templates of `app/config.py` are parameters, each a function
  from the filled-in value to the prompt text. Reading the configuration
  file is not modelled.
- The HTTP endpoints (`app/routes.py`) are not part of this model.
- The directory walk and the reading of files are not modelled. The walked
  files are given as a list of (name, contents) pairs in walk order.
- The on-disk index is a field `disk` of the retriever. The path it lives
  at and the embeddings are not modelled.
- FAISS internals are not modelled. The nearest-neighbour search is a
  ranking function passed in.
- `Retrieval.Merged`: FAISS `merge` is assumed to append the new documents
  to the old ones. Its behaviour cannot be seen in the modelled files.
- `Retrieval.Retriever.Build`, `Retrieval.Retriever.Set`,
  `QA.QAService.SetCache`, `QA.QAService.constructor`: these assume that
  building a store from a list of documents always succeeds. This includes
  the empty list, on which FAISS raises. So the model's `set_cache` with no
  pairs creates a store and a view over no documents. Its start-up with no
  index on disk and no Markdown file builds an empty corpus. The source
  raises in both cases.
- `Retrieval.Retriever.Load`: a `load` that finds nothing while a store
  exists is stated only by this member's own contract. In the model every
  step that creates a store also saves it, and failures of `save` are not
  modelled, so no sequence of calls reaches that case.
- `Retrieval.Retriever.Get`: `k` is a natural number or `None`. A negative
  `k`, which Python treats as truthy, is not modelled.
- `Retrieval.View`: a view holds the documents of the store at the moment
  it was made, not a reference to the store object. The only in-place
  change of a store, `merge` inside `set`, is followed at once by a new
  view, so the difference cannot be observed.
- The truthiness of a store (`if self.vectorstore:`) is taken to mean "is
  not `None`".
- Only the failures the modelled code raises on missing state are modelled,
  as `Result` errors:
  - a query without a view;
  - `setup` or `save` without a store.
- Failures of files, of the index and of the model are not modelled.
- `Reader.DateShapeAt`: `\d` in the pattern and in `strptime` matches any
  Unicode decimal digit. The model accepts only `0`–`9`.
- `Strings.Lower`: only Latin and Cyrillic capitals are lower-cased. Every
  other character is kept as it is. No other character lower-cases to "д"
  or "а", so the intent test is unaffected.
- `Reader.ParseDate`: only the `%d-%m-%Y` format is modelled. The time part
  of the resulting `datetime` is not.
- `QA.QAService.SetCache`: the question-answer dictionary is a list of
  pairs in insertion order. Keys are not required to be distinct.
- The `print` in `load` is not modelled.
