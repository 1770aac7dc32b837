/**
  `PromptCoachRAG`: the object that keeps the store of guide chunks, retrieves
  the chunks most relevant to a prompt and assembles the analysis handed back to
  the caller. The chat model's answer is an input here: `Completion` says
  whether there was no key, the call failed, or it replied with some text.
 */
module PromptCoach {
  import opened Wrappers
  import opened Strings
  import opened ReplyParser
  import opened Retrieval

  /** What the chat completion produced for this prompt. */
  datatype Completion = NoKey | ApiError | Reply(text: string)

  /** One entry of `relevant_sections`. */
  datatype Section = Section(title: string, content: string)

  /** The dictionary `analyze_prompt` returns. */
  datatype Report = Report(originalPrompt: string, analysis: Parsed, relevantSections: seq<Section>)

  /** The default `top_k` of `retrieve_relevant_chunks`, the one `analyze_prompt` uses. */
  const DefaultTopK := 3

  /** The phrase the placeholder removes from the prompt. */
  const BlogPhrase := "Write a blog post about "

  const RefinedLead := "You are an expert content creator. Write a comprehensive, well-researched blog post about "
  const RefinedTail := ". Include 5 key sections with headers, practical examples, and actionable takeaways. Format the response with markdown and optimize it for a technical audience."

  // ---------------------------------------------------------------------------
  // Context and sections

  /** The contents of the chunks, in order. */
  function Contents(cs: seq<Chunk>): (r: seq<string>)
    ensures |r| == |cs|
    ensures forall i :: 0 <= i < |cs| ==> r[i] == cs[i].content
  {
    if cs == [] then [] else [cs[0].content] + Contents(cs[1..])
  }

  /**
    The context handed to the chat model: the chunks' contents separated by
    blank lines. It is empty without chunks, and otherwise as long as the
    contents plus two characters between each two of them.
   */
  function Context(cs: seq<Chunk>): (r: string)
    ensures cs == [] ==> r == []
    ensures cs != [] ==> |r| == TotalLength(Contents(cs)) + 2 * (|cs| - 1)
  {
    if cs == [] then []
    else
      JoinLength(Contents(cs), "\n\n");
      Join(Contents(cs), "\n\n")
  }

  /**
    The context holds each chunk's content, unchanged and in order, at its
    offset, and a blank line (`"\n\n"`) follows every content but the last.
   */
  lemma ContextHoldsChunks(cs: seq<Chunk>, i: nat)
    requires i < |cs|
    ensures var o := JoinOffset(Contents(cs), "\n\n", i);
      o + |cs[i].content| <= |Context(cs)| && Context(cs)[o..o + |cs[i].content|] == cs[i].content
    ensures var e := JoinOffset(Contents(cs), "\n\n", i) + |cs[i].content|;
      i + 1 < |cs| ==> e + 2 <= |Context(cs)| && Context(cs)[e..e + 2] == "\n\n"
  {
    JoinAt(Contents(cs), "\n\n", i);
    if i + 1 < |cs| {
      ContextSeparator(cs, i);
    }
  }

  lemma ContextSeparator(cs: seq<Chunk>, i: nat)
    requires i + 1 < |cs|
    ensures var e := JoinOffset(Contents(cs), "\n\n", i) + |cs[i].content|;
      e + 2 <= |Context(cs)| && Context(cs)[e..e + 2] == "\n\n"
  {
    var parts := Contents(cs);
    assert Context(cs) == Join(parts, "\n\n");
    JoinSepAt(parts, "\n\n", i);
  }

  /** The list of `{title: filename, content}` entries, one per chunk. */
  function Sections(cs: seq<Chunk>): (r: seq<Section>)
    ensures |r| == |cs|
    ensures forall i :: 0 <= i < |cs| ==> r[i].title == cs[i].filename && r[i].content == cs[i].content
  {
    if cs == [] then [] else [Section(cs[0].filename, cs[0].content)] + Sections(cs[1..])
  }

  // ---------------------------------------------------------------------------
  // The placeholder analysis

  const PlaceholderStrengths := ["Provides a basic instruction", "Clear primary intent"]
  const PlaceholderWeaknesses := [
    "Lacks specific details about the desired output",
    "Missing context about the target audience or purpose",
    "No format specification for the response"]
  const PlaceholderExplanation :=
    "The refined prompt improves on the original by: 1) Adding a persona for the AI to adopt, "
    + "2) Specifying the structure and depth expected, 3) Clarifying the format (markdown), and "
    + "4) Defining the target audience. These changes follow Google's best practices for effective prompts."

  /** `_get_placeholder_analysis`: the fixed analysis used when there is no key or the call failed. */
  function Placeholder(prompt: string): (a: Analysis)
    ensures |a.strengths| == 2 && |a.weaknesses| == 3
    ensures a.assessment != [] && a.refinedPrompt != [] && a.explanation != []
  {
    Analysis(
      "Your prompt '" + prompt + "' could be improved by adding more specificity and context.",
      PlaceholderStrengths,
      PlaceholderWeaknesses,
      RefinedLead + ReplaceAll(prompt, BlogPhrase, "") + RefinedTail,
      PlaceholderExplanation)
  }

  /** A "Write a blog post about <topic>" prompt has its topic placed in the refined prompt, the phrase itself removed. */
  lemma PlaceholderBlogTopic(topic: string)
    requires !Contains(topic, BlogPhrase)
    ensures Placeholder(BlogPhrase + topic).refinedPrompt == RefinedLead + topic + RefinedTail
  {
    ReplaceLeading(BlogPhrase, topic, "");
    ReplaceAbsent(topic, BlogPhrase, "");
    assert ReplaceAll(BlogPhrase + topic, BlogPhrase, "") == topic;
  }

  /**
    The phrase is removed wherever it first stands: for a prompt made of
    `pre`, the phrase and `topic`, with the phrase nowhere before `pre`'s end
    and nowhere in `topic`, the refined prompt holds `pre` followed by `topic`.
   */
  lemma PlaceholderRemovesPhrase(pre: string, topic: string)
    requires forall j: nat :: j < |pre| ==> !OccursAt(pre + BlogPhrase + topic, BlogPhrase, j)
    requires !Contains(topic, BlogPhrase)
    ensures Placeholder(pre + BlogPhrase + topic).refinedPrompt == RefinedLead + (pre + topic) + RefinedTail
  {
    RemoveFirst(pre, BlogPhrase, topic);
  }

  /** A prompt without the phrase is placed in the refined prompt unchanged. */
  lemma PlaceholderKeepsPrompt(prompt: string)
    requires !Contains(prompt, BlogPhrase)
    ensures Placeholder(prompt).refinedPrompt == RefinedLead + prompt + RefinedTail
  {
    ReplaceAbsent(prompt, BlogPhrase, "");
  }

  // ---------------------------------------------------------------------------
  // Assembling the result

  /**
    The result of `analyze_prompt` once the relevant chunks are known and the
    chat completion has settled: the reply parsed when there is one, the
    placeholder otherwise, and the sections of the relevant chunks in either
    case.
   */
  function Analyze(prompt: string, relevant: seq<Chunk>, completion: Completion): (r: Report)
    ensures r.originalPrompt == prompt
    ensures |r.relevantSections| == |relevant|
    ensures forall i :: 0 <= i < |relevant| ==>
      r.relevantSections[i].title == relevant[i].filename && r.relevantSections[i].content == relevant[i].content
    ensures r.analysis.Raw? ==> completion.Reply? && r.analysis.text == completion.text
    ensures !completion.Reply? ==> r.analysis == Structured(Placeholder(prompt))
    ensures completion.Reply? ==> r.analysis == Parse(completion.text, prompt)
  {
    var analysis := match completion
      case Reply(text) => Parse(text, prompt)
      case _ => Structured(Placeholder(prompt));
    Report(prompt, analysis, Sections(relevant))
  }

  /** Whichever branch produced it, a structured analysis has no empty field. */
  lemma AnalysisComplete(prompt: string, relevant: seq<Chunk>, completion: Completion)
    ensures var r := Analyze(prompt, relevant, completion);
      r.analysis.Structured? ==>
        var a := r.analysis.analysis;
        a.assessment != [] && a.strengths != [] && a.weaknesses != [] && a.refinedPrompt != [] && a.explanation != []
  {
  }

  /** A reply in which no section was found is handed back verbatim; any other reply is structured. */
  lemma ReplyRawIffNothingCaptured(prompt: string, relevant: seq<Chunk>, text: string)
    ensures Analyze(prompt, relevant, Reply(text)).analysis.Raw? <==> !Captured(Scan(Start, Lines(text)))
    ensures Analyze(prompt, relevant, Reply(text)).analysis.Raw? ==>
      Analyze(prompt, relevant, Reply(text)).analysis.text == text
  {
  }

  /** The completion a call produces: none without a key; otherwise the reply, or an error when the call raised or gave no text. */
  function Complete(apiKey: string, chat: Option<string>): (c: Completion)
    ensures c.NoKey? <==> apiKey == []
    ensures c.Reply? <==> apiKey != [] && chat.Some?
    ensures c.Reply? ==> c.text == chat.value
  {
    if apiKey == [] then NoKey
    else match chat
      case Some(text) => Reply(text)
      case None => ApiError
  }

  // ---------------------------------------------------------------------------
  // The object

  class PromptCoachRag {
    /** The key, as resolved at construction (the argument or the environment, else empty). */
    const apiKey: string
    /** The store of chunks; scoring writes each chunk's `similarity` back into it. */
    var chunks: seq<Chunk>

    constructor (apiKey: string, chunks: seq<Chunk>)
      ensures this.apiKey == apiKey && this.chunks == chunks
    {
      this.apiKey := apiKey;
      this.chunks := chunks;
    }

    /**
      `retrieve_relevant_chunks`: score every chunk in place against the query
      embedding, then return the `topK` best, highest first.
     */
    method RetrieveRelevantChunks(queryEmbedding: Embedding, sim: (Embedding, Embedding) -> real, topK: int)
      returns (top: seq<Chunk>)
      modifies this
      ensures chunks == Scored(old(chunks), queryEmbedding, sim)
      ensures top == TopK(chunks, topK)
    {
      ghost var target := Scored(chunks, queryEmbedding, sim);
      var i := 0;
      while i < |chunks|
        invariant 0 <= i <= |chunks| == |target|
        invariant forall j :: 0 <= j < i ==> chunks[j] == target[j]
        invariant forall j :: i <= j < |chunks| ==> chunks[j] == old(chunks)[j]
      {
        chunks := chunks[i := chunks[i].(similarity := sim(queryEmbedding, chunks[i].embedding))];
        i := i + 1;
      }
      top := TopK(chunks, topK);
    }

    /**
      `analyze_prompt`: retrieve the three most relevant chunks, take the chat
      model's reply (`chat`, absent when the call raised or gave no text) and
      assemble the result.
     */
    method AnalyzePrompt(prompt: string, queryEmbedding: Embedding, sim: (Embedding, Embedding) -> real, chat: Option<string>)
      returns (report: Report)
      modifies this
      ensures chunks == Scored(old(chunks), queryEmbedding, sim)
      ensures report == Analyze(prompt, TopK(chunks, DefaultTopK), Complete(apiKey, chat))
    {
      var relevant := RetrieveRelevantChunks(queryEmbedding, sim, DefaultTopK);
      var analysis: Parsed;
      if apiKey != [] && chat.Some? {
        analysis := ParseReply(chat.value, prompt);
      } else {
        analysis := Structured(Placeholder(prompt));
      }
      report := Report(prompt, analysis, Sections(relevant));
    }
  }
}
