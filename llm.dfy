/** Provider dispatch (`clean_text_with_llm`) and the two-stage pipeline
    (`clean_text_with_ner_and_llm`): NER pre-processing, then one LLM pass. */
module Llm {
  import opened Wrappers
  import opened Text
  import opened Chunking
  import opened Cleaning
  import Ner

  /** The two kinds of endpoint. */
  datatype Backends = Backends(ollama: OllamaApi, cloud: CloudApi)

  /** `provider`, `model`, `ollama_url`, `base_url`, `api_key`. */
  datatype Settings = Settings(provider: string, model: string, ollamaUrl: string, baseUrl: Option<string>, apiKey: Option<string>)

  predicate IsOllama(s: Settings) {
    s.provider == "ollama"
  }

  /** Python's `not x` for an optional string. */
  predicate Blank(o: Option<string>) {
    o.None? || o.value == ""
  }

  predicate MissingCredentials(s: Settings) {
    Blank(s.baseUrl) || Blank(s.apiKey)
  }

  const OllamaLimit: nat := 8000
  const CloudLimit: nat := 12000
  const CredentialsRequired: string := "base_url and api_key are required for cloud providers"

  function Ollama(b: Backends, s: Settings): Cleaner {
    OllamaCleaner(b.ollama, s.ollamaUrl, s.model)
  }

  function Cloud(b: Backends, s: Settings, prompt: string): Cleaner
    requires !MissingCredentials(s)
  {
    CloudCleaner(b.cloud, prompt, s.baseUrl.value, s.apiKey.value, s.model)
  }

  /** `clean_text_with_llm`. */
  function CleanTextWithLlm(b: Backends, s: Settings, text: string): CleanResult {
    if IsOllama(s) then
      if |text| > OllamaLimit then LargeClean(text, OllamaLimit, s.model, Ollama(b, s)) else Ollama(b, s)(text)
    else if MissingCredentials(s) then Failure(text, s.model, CredentialsRequired)
    else if |text| > CloudLimit then LargeClean(text, CloudLimit, s.model, Cloud(b, s, CleaningPrompt))
    else Cloud(b, s, CleaningPrompt)(text)
  }

  /** The size switch agrees with `chunk_text`'s own limit: every text goes
      through the chunked driver with limit 8000 (Ollama) or 12000 (cloud),
      which cleans a text within the limit in one call. */
  lemma DispatchIsChunked(b: Backends, s: Settings, text: string)
    ensures CleanTextWithLlm(b, s, text) ==
      if IsOllama(s) then LargeClean(text, OllamaLimit, s.model, Ollama(b, s))
      else if MissingCredentials(s) then Failure(text, s.model, CredentialsRequired)
      else LargeClean(text, CloudLimit, s.model, Cloud(b, s, CleaningPrompt))
  {
    if IsOllama(s) {
      if |text| <= OllamaLimit { LargeSingleChunk(text, OllamaLimit, s.model, Ollama(b, s)); }
    } else if !MissingCredentials(s) && |text| <= CloudLimit {
      LargeSingleChunk(text, CloudLimit, s.model, Cloud(b, s, CleaningPrompt));
    }
  }

  /** A cloud provider without a base URL or an API key fails with the same
      result whatever the endpoints would answer: nothing is called. */
  lemma DispatchChecksCredentials(b1: Backends, b2: Backends, s: Settings, text: string)
    requires !IsOllama(s) && MissingCredentials(s)
    ensures CleanTextWithLlm(b1, s, text) == CleanTextWithLlm(b2, s, text)
    ensures CleanTextWithLlm(b1, s, text) == CleanResult(None, |text|, 0, s.model, false, Some(CredentialsRequired), None)
  {
  }

  // ---------------------------------------------------------------------------
  // Cleaners that agree on what they are asked give the same results.

  lemma {:induction false} CollectAgrees(chunks: seq<string>, c1: Cleaner, c2: Cleaner, texts: seq<string>, original: nat, cleaned: nat)
    requires forall i | 0 <= i < |chunks| :: c1(chunks[i]) == c2(chunks[i])
    ensures CollectFrom(chunks, c1, texts, original, cleaned) == CollectFrom(chunks, c2, texts, original, cleaned)
    decreases |chunks|
  {
    if chunks != [] {
      var r := c1(chunks[0]);
      assert forall i | 0 <= i < |chunks[1..]| :: chunks[1..][i] == chunks[i + 1];
      CollectAgrees(chunks[1..], c1, c2, texts + [r.cleanedText.GetOr("")], original + r.originalLength, cleaned + r.cleanedLength);
    }
  }

  lemma LargeAgrees(text: string, maxSize: nat, model: string, c1: Cleaner, c2: Cleaner)
    requires c1(text) == c2(text)
    requires var chunks := ChunkSpec(text, maxSize); forall i | 0 <= i < |chunks| :: c1(chunks[i]) == c2(chunks[i])
    ensures LargeClean(text, maxSize, model, c1) == LargeClean(text, maxSize, model, c2)
  {
    CollectAgrees(ChunkSpec(text, maxSize), c1, c2, [], 0, 0);
  }

  // ---------------------------------------------------------------------------
  // The two-stage pipeline

  /** The text handed to the LLM and the `ner_stats` (`None` for `{}`). */
  datatype Prepared = Prepared(text: string, stats: Option<Ner.NerStats>)

  /** Stage 1 (lines 575-593): a NER failure falls back to the raw text. */
  function Prepare(e: Ner.RegexEngine, tagger: Ner.Tagger, text: string, useNer: bool): Prepared {
    if useNer then
      var n := Ner.Preprocess(e, tagger, text);
      if !n.success then Prepared(text, None) else Prepared(n.preprocessedText.GetOr(text), n.stats)
    else Prepared(text, None)
  }

  function Template(useNer: bool): string {
    if useNer then FinalizationPrompt else CleaningPrompt
  }

  /** Stage 2 (lines 599-632), credentials already checked: Ollama always uses
      the cleaning prompt and chunks above 8000 characters; the cloud makes
      one call with the chosen template, whatever the length. */
  function Finalize(b: Backends, s: Settings, p: Prepared, useNer: bool): CleanResult
    requires IsOllama(s) || !MissingCredentials(s)
  {
    if IsOllama(s) then
      if |p.text| > OllamaLimit then LargeClean(p.text, OllamaLimit, s.model, Ollama(b, s)) else Ollama(b, s)(p.text)
    else Cloud(b, s, Template(useNer))(p.text)
  }

  /** The pipeline's result dictionary. */
  datatype PipelineResult = PipelineResult(
    cleanedText: Option<string>, originalText: Option<string>, preprocessedText: Option<string>,
    originalLength: nat, cleanedLength: nat, llmModel: string, success: bool, error: Option<string>,
    nerStats: Option<Ner.NerStats>, pipelineUsed: Option<string>)

  function PipelineFailure(text: string, model: string, message: Option<string>, stats: Option<Ner.NerStats>): PipelineResult {
    PipelineResult(None, None, None, |text|, 0, model, false, message, stats, None)
  }

  /** `clean_text_with_ner_and_llm`. */
  function CleanTextWithNerAndLlm(b: Backends, e: Ner.RegexEngine, tagger: Ner.Tagger, s: Settings, text: string, useNer: bool): PipelineResult {
    var p := Prepare(e, tagger, text, useNer);
    if !IsOllama(s) && MissingCredentials(s) then PipelineFailure(text, s.model, Some(CredentialsRequired), p.stats)
    else Report(text, s.model, p, Finalize(b, s, p, useNer), useNer)
  }

  /** Lines 634-657: the dictionary built from the LLM stage's result. */
  function Report(text: string, model: string, p: Prepared, r: CleanResult, useNer: bool): PipelineResult {
    if !r.success then PipelineFailure(text, model, r.error, p.stats)
    else
      var cleaned := r.cleanedText.GetOr("");
      PipelineResult(Some(cleaned), Some(text), if useNer then Some(p.text) else None, |text|, |cleaned|, model,
                     true, None, p.stats, Some(if useNer then "NER + LLM" else "LLM Only"))
  }

  /** On success the label names the requested pipeline, the pre-processed
      text is reported exactly when NER was requested, and the cleaned length
      is the length of the cleaned text. */
  lemma PipelineSuccess(b: Backends, e: Ner.RegexEngine, tagger: Ner.Tagger, s: Settings, text: string, useNer: bool)
    ensures var r := CleanTextWithNerAndLlm(b, e, tagger, s, text, useNer);
      r.success ==>
        r.pipelineUsed == Some(if useNer then "NER + LLM" else "LLM Only")
        && (r.preprocessedText.Some? <==> useNer)
        && r.cleanedText.Some? && r.cleanedLength == |r.cleanedText.value|
        && r.originalText == Some(text) && r.originalLength == |text| && r.error == None
  {
    var p := Prepare(e, tagger, text, useNer);
    if IsOllama(s) || !MissingCredentials(s) {
      ReportSuccess(text, s.model, p, Finalize(b, s, p, useNer), useNer);
    }
  }

  lemma ReportSuccess(text: string, model: string, p: Prepared, r: CleanResult, useNer: bool)
    ensures var q := Report(text, model, p, r, useNer);
      q.success ==>
        q.pipelineUsed == Some(if useNer then "NER + LLM" else "LLM Only")
        && (q.preprocessedText.Some? <==> useNer)
        && q.cleanedText.Some? && q.cleanedLength == |q.cleanedText.value|
        && q.originalText == Some(text) && q.originalLength == |text| && q.error == None
  {
  }

  /** Without the spaCy model the NER stage fails and the LLM gets the raw
      text; a success is still labelled "NER + LLM", with empty statistics. */
  lemma NerFallbackStillLabelled(b: Backends, e: Ner.RegexEngine, tagger: Ner.Tagger, s: Settings, text: string)
    requires !tagger.installed
    ensures Prepare(e, tagger, text, true) == Prepared(text, None)
    ensures var r := CleanTextWithNerAndLlm(b, e, tagger, s, text, true);
      r.nerStats == None
      && (r.success ==> r.pipelineUsed == Some("NER + LLM") && r.preprocessedText == Some(text))
  {
    Ner.PreprocessOutcome(e, tagger, text);
  }

  /** A successful NER stage hands its pre-processed text and statistics on. */
  lemma NerStageHandsOn(e: Ner.RegexEngine, tagger: Ner.Tagger, text: string)
    requires tagger.installed
    ensures var n := Ner.Preprocess(e, tagger, text);
      Prepare(e, tagger, text, true) == Prepared(n.preprocessedText.value, n.stats) && n.stats.Some?
  {
    Ner.PreprocessOutcome(e, tagger, text);
  }

  /** A failed LLM stage is reported with its own error, no text and length 0. */
  lemma LlmFailurePropagates(b: Backends, e: Ner.RegexEngine, tagger: Ner.Tagger, s: Settings, text: string, useNer: bool)
    requires IsOllama(s) || !MissingCredentials(s)
    requires !Finalize(b, s, Prepare(e, tagger, text, useNer), useNer).success
    ensures CleanTextWithNerAndLlm(b, e, tagger, s, text, useNer)
         == PipelineFailure(text, s.model, Finalize(b, s, Prepare(e, tagger, text, useNer), useNer).error,
                            Prepare(e, tagger, text, useNer).stats)
  {
  }

  /** Missing cloud credentials fail the pipeline whatever the endpoints would
      answer, keeping the NER statistics. */
  lemma PipelineChecksCredentials(b1: Backends, b2: Backends, e: Ner.RegexEngine, tagger: Ner.Tagger, s: Settings, text: string, useNer: bool)
    requires !IsOllama(s) && MissingCredentials(s)
    ensures CleanTextWithNerAndLlm(b1, e, tagger, s, text, useNer) == CleanTextWithNerAndLlm(b2, e, tagger, s, text, useNer)
    ensures CleanTextWithNerAndLlm(b1, e, tagger, s, text, useNer)
         == PipelineFailure(text, s.model, Some(CredentialsRequired), Prepare(e, tagger, text, useNer).stats)
  {
  }

  /** On Ollama the finalization prompt is never sent: two servers that
      answer every cleaning prompt alike give the same result, with or
      without NER. */
  lemma OllamaSendsOnlyCleaningPrompt(b1: Backends, b2: Backends, e: Ner.RegexEngine, tagger: Ner.Tagger, s: Settings, text: string, useNer: bool)
    requires IsOllama(s)
    requires forall t :: b1.ollama(s.ollamaUrl, s.model, Format(CleaningPrompt, t)) == b2.ollama(s.ollamaUrl, s.model, Format(CleaningPrompt, t))
    ensures CleanTextWithNerAndLlm(b1, e, tagger, s, text, useNer) == CleanTextWithNerAndLlm(b2, e, tagger, s, text, useNer)
  {
    var p := Prepare(e, tagger, text, useNer);
    var c1, c2 := Ollama(b1, s), Ollama(b2, s);
    assert forall t :: c1(t) == c2(t) by {
      forall t ensures c1(t) == c2(t) {
        assert b1.ollama(s.ollamaUrl, s.model, Format(CleaningPrompt, t)) == b2.ollama(s.ollamaUrl, s.model, Format(CleaningPrompt, t));
      }
    }
    LargeAgrees(p.text, OllamaLimit, s.model, c1, c2);
    assert Finalize(b1, s, p, useNer) == Finalize(b2, s, p, useNer);
  }

  /** On a cloud provider the pipeline makes one call, on the whole
      pre-processed text however long, with the finalization prompt exactly
      when NER was requested: endpoints that agree on that one request give
      the same result. */
  lemma CloudMakesOneCall(b1: Backends, b2: Backends, e: Ner.RegexEngine, tagger: Ner.Tagger, s: Settings, text: string, useNer: bool)
    requires !IsOllama(s) && !MissingCredentials(s)
    requires var p := Prepare(e, tagger, text, useNer);
      b1.cloud(s.baseUrl.value, s.apiKey.value, s.model, Format(Template(useNer), p.text))
        == b2.cloud(s.baseUrl.value, s.apiKey.value, s.model, Format(Template(useNer), p.text))
    ensures CleanTextWithNerAndLlm(b1, e, tagger, s, text, useNer) == CleanTextWithNerAndLlm(b2, e, tagger, s, text, useNer)
    ensures Template(useNer) == FinalizationPrompt <==> useNer
  {
    var p := Prepare(e, tagger, text, useNer);
    var c1, c2 := Cloud(b1, s, Template(useNer)), Cloud(b2, s, Template(useNer));
    assert c1(p.text) == c2(p.text);
    assert Finalize(b1, s, p, useNer) == c1(p.text) && Finalize(b2, s, p, useNer) == c2(p.text);
    assert Template(useNer) == FinalizationPrompt <==> useNer by {
      PromptsDiffer("", "");
    }
  }

  /** Over several Ollama chunks, the pipeline's `cleaned_length` is the joined
      text's length, which exceeds the driver's summed `cleaned_length` by
      two characters per seam. */
  lemma PipelineCountsSeams(b: Backends, e: Ner.RegexEngine, tagger: Ner.Tagger, s: Settings, text: string, useNer: bool)
    requires IsOllama(s)
    requires var p := Prepare(e, tagger, text, useNer);
      var chunks := ChunkSpec(p.text, OllamaLimit);
      |p.text| > OllamaLimit && |chunks| >= 2 && AllSucceed(chunks, Ollama(b, s))
    ensures var p := Prepare(e, tagger, text, useNer);
      var r := CleanTextWithNerAndLlm(b, e, tagger, s, text, useNer);
      r.success && r.cleanedLength == Finalize(b, s, p, useNer).cleanedLength + 2 * (|ChunkSpec(p.text, OllamaLimit)| - 1)
  {
    var p := Prepare(e, tagger, text, useNer);
    OllamaHonest(b.ollama, s.ollamaUrl, s.model, ChunkSpec(p.text, OllamaLimit));
    LargeSeams(p.text, OllamaLimit, s.model, Ollama(b, s));
  }
}
