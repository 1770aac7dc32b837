# Prompt Coach RAG pipeline, modelled in Dafny

`PromptCoachRAG` (in `rag_pipeline.py`) coaches users on their prompts for AI
systems. It keeps a store of chunks of a prompt-engineering guide, each with an
embedding, and does two things:

- **Retrieval.** It scores every chunk against the prompt, writing the score
  into the chunk. It then sorts the store by score, highest first, and returns
  the first `top_k` chunks.
- **Analysis.** It sends the prompt and the retrieved context to a chat model,
  then decodes the model's free-text reply into a structured analysis with five
  fields: assessment, strengths, weaknesses, refined prompt and explanation.
  - When there is no API key, or the call fails, a fixed placeholder analysis
    is used instead.
  - When the reply has no recognisable section, the reply itself is handed
    back.

This project models three parts of that in Dafny:

- the reply decoder;
- the top-k retrieval;
- the assembly of the result, including the placeholder.

It proves what the code promises about each.

Modules:

- `Strings` (`strings.dfy`): the Python string operations used, on `seq<char>`.
  - `str.strip()` uses Python's whitespace set.
  - `str.lower()`, the `in` substring test, `split('\n')`, `"\n\n".join`,
    `split(":", 1)[1]` and `str.replace`.
- `ReplyParser` (`reply_parser.dfy`): the decoder.
  - `Step` is one iteration of the line loop.
  - `Scan` folds `Step` over the lines.
  - `Finish` makes the raw-or-structured decision and fills the defaults.
  - `Parse` is the whole decoder.
  - `ParseReply` is the loop as the code writes it, with `continue` after blank
    lines and headers. It is proved equal to `Parse`.
- `Retrieval` (`retrieval.dfy`): the chunk record, scoring, the stable
  descending sort and the `top_k` slice.
  - The sort is specified by the order it must produce: higher score first, and
    for equal scores the earlier store position first.
  - `Ranking` computes that order by insertion.
  - `RankedUnique` shows that any stable descending sort gives the same result.
- `PromptCoach` (`prompt_coach.dfy`): the `PromptCoachRag` class, which holds
  the chunk store and the key.
  - `RetrieveRelevantChunks` writes the scores into the store in a loop, as the
    code does, then takes the top `k`.
  - `AnalyzePrompt` retrieves the three best chunks and assembles the report
    from the outcome of the chat call.
  - `Analyze` describes that assembly for each outcome: `NoKey`, `ApiError` or
    `Reply(text)`.
- `Wrappers` (`wrappers.dfy`): `Option`.

## Model

| member | source | states |
|---|---|---|
| Strings.Strip | rag_pipeline.py:136 | The stripped line is empty exactly when the line is all whitespace; otherwise it neither starts nor ends with whitespace |
| Strings.StripSlice | rag_pipeline.py:136 | `strip()` removes only whitespace, only at the two ends: the result is the slice after the leading whitespace, and everything outside it is whitespace |
| Strings.StripIdempotent | rag_pipeline.py:136 | Stripping a stripped line changes nothing |
| Strings.Contains | rag_pipeline.py:140 | The left-to-right scan behind `keyword in line.lower()` succeeds exactly when the keyword occurs at some position of the line |
| Strings.LowerContains | rag_pipeline.py:140 | For a keyword without upper-case letters, `keyword in line.lower()` holds exactly when the keyword occurs in the line with ASCII case ignored |
| Strings.Split | rag_pipeline.py:127 | `split('\n')` gives at least one piece, and no piece holds a newline; `SplitJoin` and `JoinSplit` make it the inverse of the `'\n'` join |
| Strings.SplitJoin | rag_pipeline.py:127 | Splitting the reply on `'\n'` loses nothing: joining the pieces with `'\n'` gives back the reply |
| Strings.JoinSplit | rag_pipeline.py:127 | Splitting a `'\n'`-join of lines that hold no `'\n'` gives back exactly those lines |
| Strings.AfterFirst | rag_pipeline.py:142 | `split(":", 1)[1]` is the suffix after the first colon, and there is no colon before it |
| Strings.ReplaceAll | rag_pipeline.py:210 | `replace` with the pattern itself changes nothing, and a replacement no longer than the pattern never lengthens the string; `ReplaceFirst` gives its scan order |
| Strings.ReplaceFirst | rag_pipeline.py:210 | `replace` scans left to right: the leftmost occurrence of the pattern is replaced, the text before it is kept, and the scan resumes right after it |
| Strings.RemoveFirst | rag_pipeline.py:210 | Replacing by "" a pattern that first occurs after a prefix, and never in the rest, gives the prefix followed by the rest |
| Strings.ReplaceAbsent | rag_pipeline.py:210 | `replace` leaves a string without the pattern unchanged |
| Strings.JoinAt | rag_pipeline.py:92 | Each part sits unchanged, in order, at its offset in the joined string |
| Strings.JoinSepAt | rag_pipeline.py:92 | The separator stands right after every part but the last in the joined string |
| Strings.JoinLength | rag_pipeline.py:92 | The joined string is as long as the parts plus one separator between each two of them |
| ReplyParser.Header | rag_pipeline.py:140-155 | A line announces no section exactly when its lower-cased text holds none of the nine keywords, and it never announces "no section" |
| ReplyParser.HeaderChain | rag_pipeline.py:140-155 | The keyword-table walk gives the section the code's `if`/`elif` chain of keyword tests selects, or none |
| ReplyParser.HeaderByPriority | rag_pipeline.py:140-155 | A line announces section m exactly when it mentions a keyword of m and no keyword of an earlier section; it announces none exactly when it mentions no keyword |
| ReplyParser.OverallStrengthsIsAssessment | rag_pipeline.py:140-146 | "Overall strengths" announces the assessment section, because assessment/overall is tested first |
| ReplyParser.BlankLineIgnored | rag_pipeline.py:136-138 | A line that is blank after stripping changes neither the section nor any field |
| ReplyParser.BlankLinesIgnored | rag_pipeline.py:135-138 | Blank lines anywhere in the reply do not affect the scan: it gives the same state as the scan of the non-blank lines alone |
| ReplyParser.Step | rag_pipeline.py:135-166 | One pass of the loop body: a blank line changes nothing, and the strengths and weaknesses lists keep their items and gain at most one per line |
| ReplyParser.Scan | rag_pipeline.py:135-166 | The whole loop: the lists keep what they held and gain at most one item per line of the reply |
| ReplyParser.HeaderConsumed | rag_pipeline.py:140-155 | A header line switches the section and adds nothing to the lists or prose. Only an assessment header touches the assessment: the stripped text after the first colon, or "" without a colon |
| ReplyParser.AssessmentCollected | rag_pipeline.py:157-158 | In the assessment section, a run of content lines sets an empty assessment to its first line, stripped, drops every other line and changes nothing else |
| ReplyParser.AssessmentAfterHeader | rag_pipeline.py:141-158 | After an assessment header, the assessment is the stripped text after its first colon; when that is empty it is the first content line that follows, and it stays empty only when none follows |
| ReplyParser.BulletsCollected | rag_pipeline.py:159-162 | In the strengths or weaknesses section, a run of content lines appends its bullet items, in input order, with the `-` removed and the rest stripped. Other lines are skipped and nothing else changes |
| ReplyParser.ProseCollected | rag_pipeline.py:163-166 | In the refined or explanation section, every content line is appended, stripped and followed by one space; nothing else changes |
| ReplyParser.ProseTrimmed | rag_pipeline.py:180-181 | Once trimmed, the accumulated prose is the stripped lines joined by single spaces |
| ReplyParser.Finish | rag_pipeline.py:169-182 | The result is raw exactly when no field captured anything, and a raw result carries the reply verbatim. Every structured field is non-empty. A captured assessment or list is kept, an empty one gets its default. The refined prompt and the explanation are the stripped prose when that is non-empty, and otherwise "Improved version of: <prompt>" and the default explanation |
| ReplyParser.Parse | rag_pipeline.py:127-182 | The decoder comes back raw exactly when the scan of the reply's lines captured nothing, and then carries the reply verbatim; otherwise no field of the analysis is empty |
| ReplyParser.NoKeywordsIsRaw | rag_pipeline.py:169-174 | A reply none of whose lines mentions a section keyword comes back verbatim, as the raw variant |
| ReplyParser.ParseKeepsCaptured | rag_pipeline.py:176-182 | Captured text is never replaced by a default. A captured refined prompt or explanation comes back trimmed. A captured assessment and every captured strength and weakness come back stripped |
| ReplyParser.StrengthsExample | rag_pipeline.py:159-162 | "Strengths:", "- clear", "- concise" gives the strengths ["clear", "concise"], with every other field defaulted |
| ReplyParser.ParseReply | rag_pipeline.py:127-182 | The line loop as written, with its `continue`s and its defaulting, computes `Parse` |
| Retrieval.Scored | rag_pipeline.py:69-70 | After scoring, each chunk's similarity is its score against the query; its content, file name and embedding are unchanged |
| Retrieval.SortedChunks | rag_pipeline.py:73 | The sorted store is a permutation of the store, and scores never increase along it |
| Retrieval.RankingStable | rag_pipeline.py:73 | Each store position appears exactly once, each with its own chunk. Scores never increase, and equal scores keep their store order (the sort is stable) |
| Retrieval.RankingIsTheStableSort | rag_pipeline.py:73 | Any arrangement of the store that is ordered by descending score and stable on ties is the ranking: the result of `sorted(..., reverse=True)` is determined |
| Retrieval.RankedUnique | rag_pipeline.py:73 | Two ordered arrangements of the same entries are equal |
| Retrieval.TopK | rag_pipeline.py:76 | The result of `sorted_chunks[:top_k]`, for any `top_k`, negative ones included, is no longer than the store, holds no chunk more often than the store does, and is ordered best first |
| Retrieval.TopKBest | rag_pipeline.py:76 | Retrieval returns min(top_k, n) chunks, the head of the sorted store, each scoring at least as high as every chunk left out |
| Retrieval.TopKAll | rag_pipeline.py:76 | With top_k at least the store size, the whole store comes back with no chunk dropped or repeated |
| Retrieval.TopKPrefix | rag_pipeline.py:73-76 | The retrieved chunks and the ones left out together make up exactly the store |
| PromptCoach.Context | rag_pipeline.py:92 | The context is empty without chunks; otherwise it is the contents plus two characters between each two of them |
| PromptCoach.ContextHoldsChunks | rag_pipeline.py:92 | The context holds each retrieved chunk's content, unchanged and in order, and `"\n\n"` follows every content but the last |
| PromptCoach.Sections | rag_pipeline.py:194 | One `{title, content}` entry per retrieved chunk, in order, with the chunk's file name and content |
| PromptCoach.Placeholder | rag_pipeline.py:197-212 | The placeholder has 2 strengths, 3 weaknesses and non-empty assessment, refined prompt and explanation |
| PromptCoach.PlaceholderBlogTopic | rag_pipeline.py:210 | For "Write a blog post about <topic>", the refined prompt holds the topic with the phrase removed |
| PromptCoach.PlaceholderRemovesPhrase | rag_pipeline.py:210 | Wherever "Write a blog post about " first stands in the prompt, the refined prompt holds the prompt with that phrase removed, so "Please Write a blog post about cats" gives "Please cats" |
| PromptCoach.PlaceholderKeepsPrompt | rag_pipeline.py:210 | A prompt without the phrase goes into the refined prompt unchanged |
| PromptCoach.Analyze | rag_pipeline.py:114-195 | In every branch, the report carries the prompt and one section per relevant chunk, in order. A reply gives the decoded reply, which is raw only then, and verbatim. Without a key or after an API error, the analysis is the placeholder |
| PromptCoach.AnalysisComplete | rag_pipeline.py:176-189 | Whichever branch produced it, a structured analysis has no empty field |
| PromptCoach.ReplyRawIffNothingCaptured | rag_pipeline.py:169-174 | A reply comes back raw exactly when the scan captured nothing, and then verbatim |
| PromptCoach.PromptCoachRag.constructor | rag_pipeline.py:8-19 | The object holds the resolved key and the given store |
| PromptCoach.PromptCoachRag.RetrieveRelevantChunks | rag_pipeline.py:55-76 | The store afterwards is the store with every chunk scored in place, and the result is the top k of it |
| PromptCoach.PromptCoachRag.AnalyzePrompt | rag_pipeline.py:78-195 | It scores the store, and the report is `Analyze` of the prompt, the three best chunks and the call's outcome |

## Left out

- Cosine similarity (`cosine_similarity`) is not modelled: it is floating-point numerics via numpy. The score is an abstract function `sim` from two embeddings to a `real`. NaN scores, which would break the sort's order, are therefore not modelled.
- `get_embedding`, meaning the OpenAI call and the random fallback, is not modelled. The query embedding is a parameter of `RetrieveRelevantChunks` and `AnalyzePrompt`.
- `load_embeddings`, the file and JSON reading in `__init__`, the environment lookup for the key, and the client construction are not modelled. The constructor takes the resolved key and the chunk store.
- The chat completion call is not modelled; it is an input. `AnalyzePrompt` takes its outcome as an `Option<string>`: `None` stands for a raised exception, and also for a reply whose `message.content` is None, which makes the parser raise.
- The `print` logging is not modelled.
- The wording of the system and user message templates is not modelled. Only the context join that fills them is.
- Aliasing is not modelled. Python scores the chunk dictionaries in place, and the returned list shares them with the store. The model reassigns the `chunks` sequence instead, so the returned chunks are equal to the stored ones, not shared with them.
- Strings.LowerContains: ignores the case of ASCII letters only. Python's `str.lower()` also lower-cases other Unicode letters, so a keyword written with such letters would not be recognised by the model.
- Python's `sorted` algorithm (Timsort) is not modelled. `RankingIsTheStableSort` shows that any stable descending sort gives the one result the model computes.
- `app.py`, the Streamlit front end, is not part of this model.
