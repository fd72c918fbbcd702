/** One LLM cleaning call and the chunked driver around it, for the local
    Ollama server and for OpenAI-compatible cloud endpoints. The HTTP calls
    are oracles: functions from the request to a tagged reply. */
module Cleaning {
  import opened Wrappers
  import opened Text
  import opened Chunking

  /** The result dictionary: `cleaned_text`, `original_length`,
      `cleaned_length`, `llm_model`, `success`, `error` and, from the chunked
      drivers only, `chunks_processed`. */
  datatype CleanResult = CleanResult(
    cleanedText: Option<string>, originalLength: nat, cleanedLength: nat, llmModel: string,
    success: bool, error: Option<string>, chunksProcessed: Option<nat>)

  /** The shape of every failure: no text, length 0, the original length kept. */
  function Failure(text: string, model: string, message: string): CleanResult {
    CleanResult(None, |text|, 0, model, false, Some(message), None)
  }

  /** The shape of every successful single call: the reply stripped. */
  function Cleaned(text: string, model: string, output: string): CleanResult {
    CleanResult(Some(Strip(output)), |text|, |Strip(output)|, model, true, None, None)
  }

  // ---------------------------------------------------------------------------
  // Prompts. Their wording is not modelled; each is its instructions followed
  // by the single `{text}` field, which is how both templates end.

  const CleaningInstructions: string := "(cleaning instructions)\n\n"
  const FinalizationInstructions: string := "(finalization instructions)\n\n"

  /** `CLEANING_PROMPT`. */
  const CleaningPrompt: string := CleaningInstructions + TextField
  /** `LLM_FINALIZATION_PROMPT`. */
  const FinalizationPrompt: string := FinalizationInstructions + TextField

  /** Formatting either prompt puts the text after its instructions. */
  lemma PromptsFormat(text: string)
    ensures Format(CleaningPrompt, text) == CleaningInstructions + text
    ensures Format(FinalizationPrompt, text) == FinalizationInstructions + text
  {
    FormatFieldAtEnd(CleaningInstructions, text);
    FormatFieldAtEnd(FinalizationInstructions, text);
  }

  /** The two prompts are different, and so are the texts they send. */
  lemma PromptsDiffer(t1: string, t2: string)
    ensures Format(CleaningPrompt, t1) != Format(FinalizationPrompt, t2)
  {
    PromptsFormat(t1);
    PromptsFormat(t2);
    assert Format(CleaningPrompt, t1)[1] == 'c' && Format(FinalizationPrompt, t2)[1] == 'f';
  }

  // ---------------------------------------------------------------------------
  // Ollama: `clean_text_with_ollama`

  /** What a POST to `/api/generate` produces: the `response` field (`""` when
      absent), or the exception raised. */
  datatype OllamaReply = Generated(response: string) | ConnectionFailed | TimedOut | RequestFailed(detail: string)

  /** The Ollama server, as a function of (server URL, model, prompt). */
  type OllamaApi = (string, string, string) -> OllamaReply

  const OllamaEmpty: string := "Ollama returned empty response"

  function OllamaConnectionError(url: string): string {
    "Failed to connect to Ollama at " + url + ". Is Ollama running?"
  }

  const OllamaTimeoutError: string := "Request" + " to Ollama timed out. Try with a shorter text or increase timeout."

  function OllamaOtherError(detail: string): string {
    "Error during text cleaning: " + detail
  }

  /** `clean_text_with_ollama(text, ollama_url, model)`: the prompt is always `CLEANING_PROMPT`. */
  function CleanWithOllama(api: OllamaApi, url: string, model: string, text: string): CleanResult {
    match api(url, model, Format(CleaningPrompt, text))
    case Generated(out) =>
      if out == "" then Failure(text, model, OllamaOtherError(OllamaEmpty)) else Cleaned(text, model, out)
    case ConnectionFailed => Failure(text, model, OllamaConnectionError(url))
    case TimedOut => Failure(text, model, OllamaTimeoutError)
    case RequestFailed(d) => Failure(text, model, OllamaOtherError(d))
  }

  /** The call succeeds exactly when the server generated a non-empty
      response; the result is then that response stripped, with its length. */
  lemma OllamaSuccess(api: OllamaApi, url: string, model: string, text: string)
    ensures var r := CleanWithOllama(api, url, model, text);
      var reply := api(url, model, Format(CleaningPrompt, text));
      (r.success <==> reply.Generated? && reply.response != "")
      && (r.success ==> r.cleanedText == Some(Strip(reply.response)) && r.cleanedLength == |Strip(reply.response)|
                        && r.error == None)
      && r.originalLength == |text| && r.llmModel == model && r.chunksProcessed == None
  {
  }

  /** Every failure has no text, length 0 and the original length, and an error message. */
  lemma OllamaFailureShape(api: OllamaApi, url: string, model: string, text: string)
    ensures var r := CleanWithOllama(api, url, model, text);
      !r.success ==> r.cleanedText == None && r.cleanedLength == 0 && r.originalLength == |text| && r.error.Some?
  {
  }

  /** Why an Ollama call failed, as the exception handlers distinguish it. */
  datatype Cause = Connection | Timeout | Other

  function OllamaCause(reply: OllamaReply): Cause {
    match reply
    case ConnectionFailed => Connection
    case TimedOut => Timeout
    case _ => Other
  }

  function CauseInitial(c: Cause): char {
    match c
    case Connection => 'F'
    case Timeout => 'R'
    case Other => 'E'
  }

  lemma OllamaErrorInitial(api: OllamaApi, url: string, model: string, text: string)
    requires !CleanWithOllama(api, url, model, text).success
    ensures var e := CleanWithOllama(api, url, model, text).error;
      e.Some? && |e.value| > 0 && e.value[0] == CauseInitial(OllamaCause(api(url, model, Format(CleaningPrompt, text))))
  {
    match api(url, model, Format(CleaningPrompt, text))
    case Generated(out) => assert OllamaOtherError(OllamaEmpty)[0] == 'E';
    case ConnectionFailed => assert OllamaConnectionError(url)[0] == 'F';
    case TimedOut => assert OllamaTimeoutError[0] == 'R';
    case RequestFailed(d) => assert OllamaOtherError(d)[0] == 'E';
  }

  /** The error message tells connection failures, timeouts and other errors apart. */
  lemma OllamaErrorNamesCause(api: OllamaApi, url: string, model: string, t1: string, t2: string)
    requires !CleanWithOllama(api, url, model, t1).success && !CleanWithOllama(api, url, model, t2).success
    requires CleanWithOllama(api, url, model, t1).error == CleanWithOllama(api, url, model, t2).error
    ensures OllamaCause(api(url, model, Format(CleaningPrompt, t1))) == OllamaCause(api(url, model, Format(CleaningPrompt, t2)))
  {
    OllamaErrorInitial(api, url, model, t1);
    OllamaErrorInitial(api, url, model, t2);
  }

  // ---------------------------------------------------------------------------
  // Cloud: `clean_text_with_cloud_llm`

  /** What `client.chat.completions.create` produces: the `message.content`
      of each choice, or the exception raised. */
  datatype ChatReply = Choices(contents: seq<Option<string>>) | ApiFailed(detail: string)

  /** An OpenAI-compatible endpoint, as a function of (base URL, API key, model, prompt). */
  type CloudApi = (string, string, string, string) -> ChatReply

  const CloudEmpty: string := "Cloud LLM returned empty response"

  function CloudError(detail: string): string {
    "Error during cloud LLM text cleaning: " + detail
  }

  /** The first choice's content, `None` when there is no choice. */
  function FirstContent(reply: ChatReply): Option<string>
    requires reply.Choices?
  {
    if |reply.contents| > 0 then reply.contents[0] else None
  }

  /** `clean_text_with_cloud_llm(text, prompt, base_url, api_key, model)`. */
  function CleanWithCloud(api: CloudApi, prompt: string, baseUrl: string, apiKey: string, model: string, text: string): CleanResult {
    var reply := api(baseUrl, apiKey, model, Format(prompt, text));
    if reply.ApiFailed? then Failure(text, model, CloudError(reply.detail))
    else
      var content := FirstContent(reply);
      if content.None? || content.value == "" then Failure(text, model, CloudError(CloudEmpty))
      else Cleaned(text, model, content.value)
  }

  /** The call succeeds exactly when the first choice holds a non-empty
      content; the result is then that content stripped, with its length. A
      missing choice, a missing content and an empty content all fail alike. */
  lemma CloudSuccess(api: CloudApi, prompt: string, baseUrl: string, apiKey: string, model: string, text: string)
    ensures var r := CleanWithCloud(api, prompt, baseUrl, apiKey, model, text);
      var reply := api(baseUrl, apiKey, model, Format(prompt, text));
      (r.success <==> reply.Choices? && |reply.contents| > 0 && reply.contents[0].Some? && reply.contents[0].value != "")
      && (r.success ==> r.cleanedText == Some(Strip(reply.contents[0].value))
                        && r.cleanedLength == |Strip(reply.contents[0].value)| && r.error == None)
      && (!r.success ==> r.cleanedText == None && r.cleanedLength == 0 && r.error.Some?
                         && (reply.Choices? ==> r.error == Some(CloudError(CloudEmpty))))
      && r.originalLength == |text| && r.llmModel == model
  {
  }

  // ---------------------------------------------------------------------------
  // The chunked drivers: `clean_large_text_with_ollama` and `clean_large_text_with_cloud_llm`

  /** One call on one piece of text. */
  type Cleaner = string -> CleanResult

  function OllamaCleaner(api: OllamaApi, url: string, model: string): Cleaner {
    t => CleanWithOllama(api, url, model, t)
  }

  function CloudCleaner(api: CloudApi, prompt: string, baseUrl: string, apiKey: string, model: string): Cleaner {
    t => CleanWithCloud(api, prompt, baseUrl, apiKey, model, t)
  }

  /** The loop over the chunks: it stops at the first failed result, otherwise
      it collects the texts and the two running totals. */
  datatype Collected = Stopped(failure: CleanResult) | Finished(texts: seq<string>, original: nat, cleaned: nat)

  function CollectFrom(chunks: seq<string>, clean: Cleaner, texts: seq<string>, original: nat, cleaned: nat): Collected
    decreases |chunks|
  {
    if chunks == [] then Finished(texts, original, cleaned)
    else
      var r := clean(chunks[0]);
      if !r.success then Stopped(r)
      else CollectFrom(chunks[1..], clean, texts + [r.cleanedText.GetOr("")], original + r.originalLength, cleaned + r.cleanedLength)
  }

  /** The chunked driver over the chunks `chunk_text(text, maxSize)`. */
  function LargeClean(text: string, maxSize: nat, model: string, clean: Cleaner): CleanResult {
    ChunkedClean(ChunkSpec(text, maxSize), text, model, clean)
  }

  /** The driver once `text` has been cut into `chunks`. */
  function ChunkedClean(chunks: seq<string>, text: string, model: string, clean: Cleaner): CleanResult {
    if |chunks| == 1 then clean(text)
    else match CollectFrom(chunks, clean, [], 0, 0)
      case Stopped(f) => f
      case Finished(texts, o, c) => CleanResult(Some(Join(texts, Sep)), o, c, model, true, None, Some(|chunks|))
  }

  /** The texts of the results, and their totals: an independent description
      of what the loop collects when every call succeeds. */
  function Outputs(chunks: seq<string>, clean: Cleaner): (ts: seq<string>)
    ensures |ts| == |chunks|
  {
    seq(|chunks|, i requires 0 <= i < |chunks| => clean(chunks[i]).cleanedText.GetOr(""))
  }

  function TotalOriginal(chunks: seq<string>, clean: Cleaner): nat {
    if chunks == [] then 0 else clean(chunks[0]).originalLength + TotalOriginal(chunks[1..], clean)
  }

  function TotalCleaned(chunks: seq<string>, clean: Cleaner): nat {
    if chunks == [] then 0 else clean(chunks[0]).cleanedLength + TotalCleaned(chunks[1..], clean)
  }

  predicate AllSucceed(chunks: seq<string>, clean: Cleaner) {
    SucceedBefore(chunks, clean, |chunks|)
  }

  /** The calls on the first `j` chunks succeed. */
  predicate SucceedBefore(chunks: seq<string>, clean: Cleaner, j: nat)
    requires j <= |chunks|
  {
    forall i | 0 <= i < j :: clean(chunks[i]).success
  }

  lemma {:induction false} CollectSucceeds(chunks: seq<string>, clean: Cleaner, texts: seq<string>, original: nat, cleaned: nat)
    requires AllSucceed(chunks, clean)
    ensures CollectFrom(chunks, clean, texts, original, cleaned)
         == Finished(texts + Outputs(chunks, clean), original + TotalOriginal(chunks, clean), cleaned + TotalCleaned(chunks, clean))
    decreases |chunks|
  {
    if chunks == [] {
      assert texts + [] == texts;
    } else {
      var r := clean(chunks[0]);
      assert AllSucceed(chunks[1..], clean) by {
        forall i | 0 <= i < |chunks[1..]| ensures clean(chunks[1..][i]).success { assert chunks[1..][i] == chunks[i + 1]; }
      }
      CollectSucceeds(chunks[1..], clean, texts + [r.cleanedText.GetOr("")], original + r.originalLength, cleaned + r.cleanedLength);
      assert [r.cleanedText.GetOr("")] + Outputs(chunks[1..], clean) == Outputs(chunks, clean);
    }
  }

  lemma {:induction false} CollectStops(chunks: seq<string>, clean: Cleaner, texts: seq<string>, original: nat, cleaned: nat, j: nat)
    requires j < |chunks| && !clean(chunks[j]).success && SucceedBefore(chunks, clean, j)
    ensures CollectFrom(chunks, clean, texts, original, cleaned) == Stopped(clean(chunks[j]))
    decreases |chunks|
  {
    if j > 0 {
      var r := clean(chunks[0]);
      assert SucceedBefore(chunks[1..], clean, j - 1) by {
        forall i | 0 <= i < j - 1 ensures clean(chunks[1..][i]).success { assert chunks[1..][i] == chunks[i + 1]; }
      }
      CollectStops(chunks[1..], clean, texts + [r.cleanedText.GetOr("")], original + r.originalLength, cleaned + r.cleanedLength, j - 1);
    }
  }

  /** A single chunk, in particular any text within `maxSize`, is cleaned in
      one call on the whole text. */
  lemma LargeSingleChunk(text: string, maxSize: nat, model: string, clean: Cleaner)
    requires |text| <= maxSize || |ChunkSpec(text, maxSize)| == 1
    ensures LargeClean(text, maxSize, model, clean) == clean(text)
  {
    if |text| <= maxSize { ShortTextSingleChunk(text, maxSize); }
  }

  /** With several chunks, the first failed chunk's result is returned as it is. */
  lemma LargeFirstFailure(text: string, maxSize: nat, model: string, clean: Cleaner, j: nat)
    requires var chunks := ChunkSpec(text, maxSize);
      |chunks| != 1 && j < |chunks| && !clean(chunks[j]).success && SucceedBefore(chunks, clean, j)
    ensures LargeClean(text, maxSize, model, clean) == clean(ChunkSpec(text, maxSize)[j])
  {
    CollectStops(ChunkSpec(text, maxSize), clean, [], 0, 0, j);
  }

  /** With several chunks all cleaned, the texts are joined with `"\n\n"`,
      both lengths are summed over the chunks and the chunks are counted. */
  lemma LargeSuccess(text: string, maxSize: nat, model: string, clean: Cleaner)
    requires var chunks := ChunkSpec(text, maxSize); |chunks| != 1 && AllSucceed(chunks, clean)
    ensures var chunks := ChunkSpec(text, maxSize);
      LargeClean(text, maxSize, model, clean)
        == CleanResult(Some(Join(Outputs(chunks, clean), Sep)), TotalOriginal(chunks, clean), TotalCleaned(chunks, clean),
                       model, true, None, Some(|chunks|))
  {
    ChunkedSuccess(ChunkSpec(text, maxSize), text, model, clean);
  }

  lemma ChunkedSuccess(chunks: seq<string>, text: string, model: string, clean: Cleaner)
    requires |chunks| != 1 && AllSucceed(chunks, clean)
    ensures ChunkedClean(chunks, text, model, clean)
         == CleanResult(Some(Join(Outputs(chunks, clean), Sep)), TotalOriginal(chunks, clean), TotalCleaned(chunks, clean),
                        model, true, None, Some(|chunks|))
  {
    CollectAll(chunks, clean);
  }

  /** The loop run from the start over chunks that all succeed. */
  lemma CollectAll(chunks: seq<string>, clean: Cleaner)
    requires AllSucceed(chunks, clean)
    ensures CollectFrom(chunks, clean, [], 0, 0) == Finished(Outputs(chunks, clean), TotalOriginal(chunks, clean), TotalCleaned(chunks, clean))
  {
    CollectSucceeds(chunks, clean, [], 0, 0);
    assert [] + Outputs(chunks, clean) == Outputs(chunks, clean);
  }

  /** The driver fails exactly when some chunk fails. */
  lemma LargeFailsIffSomeChunkFails(text: string, maxSize: nat, model: string, clean: Cleaner)
    requires |ChunkSpec(text, maxSize)| != 1
    ensures LargeClean(text, maxSize, model, clean).success <==> AllSucceed(ChunkSpec(text, maxSize), clean)
  {
    var chunks := ChunkSpec(text, maxSize);
    if AllSucceed(chunks, clean) {
      LargeSuccess(text, maxSize, model, clean);
    } else {
      var j := FirstFailed(chunks, clean);
      LargeFirstFailure(text, maxSize, model, clean, j);
    }
  }

  /** The index of the first failed chunk. */
  function FirstFailed(chunks: seq<string>, clean: Cleaner): (j: nat)
    requires !AllSucceed(chunks, clean)
    ensures j < |chunks| && !clean(chunks[j]).success && SucceedBefore(chunks, clean, j)
  {
    if !clean(chunks[0]).success then 0
    else
      var j := FirstFailed(chunks[1..], clean);
      assert SucceedBefore(chunks, clean, j + 1) by {
        forall i | 0 <= i < j + 1 ensures clean(chunks[i]).success {
          if i > 0 { assert chunks[i] == chunks[1..][i - 1]; }
        }
      }
      j + 1
  }

  /** A cleaner whose successful results report the length of their text, as
      both single calls do. */
  predicate Honest(chunks: seq<string>, clean: Cleaner) {
    forall i | 0 <= i < |chunks| :: clean(chunks[i]).success ==>
      clean(chunks[i]).cleanedText.Some? && clean(chunks[i]).cleanedLength == |clean(chunks[i]).cleanedText.value|
  }

  lemma OllamaHonest(api: OllamaApi, url: string, model: string, chunks: seq<string>)
    ensures Honest(chunks, OllamaCleaner(api, url, model))
  {
  }

  lemma CloudHonest(api: CloudApi, prompt: string, baseUrl: string, apiKey: string, model: string, chunks: seq<string>)
    ensures Honest(chunks, CloudCleaner(api, prompt, baseUrl, apiKey, model))
  {
  }

  lemma {:induction false} OutputsLength(chunks: seq<string>, clean: Cleaner)
    requires AllSucceed(chunks, clean) && Honest(chunks, clean)
    ensures SumLengths(Outputs(chunks, clean)) == TotalCleaned(chunks, clean)
    decreases |chunks|
  {
    if chunks != [] {
      assert AllSucceed(chunks[1..], clean) && Honest(chunks[1..], clean) by {
        forall i | 0 <= i < |chunks[1..]| ensures chunks[1..][i] == chunks[i + 1] { }
      }
      OutputsLength(chunks[1..], clean);
      assert Outputs(chunks, clean)[1..] == Outputs(chunks[1..], clean);
    }
  }

  /** The `cleaned_length` of a chunked result leaves out the separators: the
      joined text is longer by two characters per seam. */
  lemma LargeSeams(text: string, maxSize: nat, model: string, clean: Cleaner)
    requires var chunks := ChunkSpec(text, maxSize);
      |chunks| >= 2 && AllSucceed(chunks, clean) && Honest(chunks, clean)
    ensures var r := LargeClean(text, maxSize, model, clean);
      r.success && r.cleanedText.Some? && |r.cleanedText.value| == r.cleanedLength + 2 * (|ChunkSpec(text, maxSize)| - 1)
  {
    var chunks := ChunkSpec(text, maxSize);
    LargeSuccess(text, maxSize, model, clean);
    OutputsLength(chunks, clean);
    JoinLength(Outputs(chunks, clean), Sep);
  }

  /** The loop of the chunked drivers: clean the chunks in order and stop at
      the first failure. */
  method CollectChunks(chunks: seq<string>, clean: Cleaner) returns (c: Collected)
    ensures c == CollectFrom(chunks, clean, [], 0, 0)
  {
    var cleanedChunks: seq<string> := [];
    var totalOriginal: nat := 0;
    var totalCleaned: nat := 0;
    var pending := chunks;
    while pending != []
      invariant CollectFrom(pending, clean, cleanedChunks, totalOriginal, totalCleaned) == CollectFrom(chunks, clean, [], 0, 0)
      decreases |pending|
    {
      var result := clean(pending[0]);
      if !result.success {
        return Stopped(result);
      }
      cleanedChunks := cleanedChunks + [result.cleanedText.GetOr("")];
      totalOriginal := totalOriginal + result.originalLength;
      totalCleaned := totalCleaned + result.cleanedLength;
      pending := pending[1..];
    }
    return Finished(cleanedChunks, totalOriginal, totalCleaned);
  }

  /** `clean_large_text_with_ollama` and `clean_large_text_with_cloud_llm`, for the cleaner of each. */
  method CleanLargeText(text: string, maxSize: nat, model: string, clean: Cleaner) returns (r: CleanResult)
    ensures r == LargeClean(text, maxSize, model, clean)
  {
    var chunks := ChunkText(text, maxSize);
    if |chunks| == 1 {
      return clean(text);
    }
    var collected := CollectChunks(chunks, clean);
    match collected
    case Stopped(failure) =>
      return failure;
    case Finished(cleanedChunks, totalOriginal, totalCleaned) =>
      return CleanResult(Some(Join(cleanedChunks, Sep)), totalOriginal, totalCleaned, model, true, None, Some(|chunks|));
  }
}
