# Verified model of the lawer_lms_back core

A Dafny model of the deterministic core of `lawer_lms_back`, a FastAPI
backend for a legal-education LMS. Methodists upload legal cases and course
material. An LLM pipeline cleans the text and anonymises it:
named-entity placeholders first, then an LLM rewrite. The backend produces
tests and case questions from LLM replies, scores students' test
submissions and grades their written case answers.

What the model covers, module by module:

- **Placeholders, OrderedDict, Ner** (`app/services/ner_service.py`)
  - The placeholder registry: four per-category counters in a `Registry` class, plus reset.
  - The regex pass: nine flat categories, each with one fixed tag, then numbered addresses.
  - The spaCy entity pass: first occurrence wins, with a label filter.
  - The statistics of `preprocess_with_ner`.
  - Python's insertion-ordered `dict` is modelled as a sequence of entries with distinct keys.
  - The regular expression engine and the spaCy tagger are oracles: function-valued parameters that return matches or entities.
- **Chunking, Cleaning, Llm** (`app/services/llm_service.py`, `app/services/llm_service_cloud.py`)
  - The greedy paragraph packer `chunk_text`.
  - The result shaping of the Ollama and cloud calls.
  - The fail-fast chunked drivers.
  - Provider dispatch, with its 8000 / 12000 thresholds and credential check.
  - The two-stage NER + LLM pipeline.
  - Ollama and the cloud endpoints are oracles that return a reply.
- **Text**: the parts of Python's `str` the code relies on, written out:
  - `strip`, `split`, `join`, `replace` and `format`;
  - `str(n)` and `int(s)`;
  - `lower`, for ASCII letters and the basic Cyrillic capitals only (see "Left out").
- **Situational, CaseQuestions, Score**: the three parsers of LLM output, with the checks around them.
  - `_parse_situational_tests` and the structure check of `generate_test`.
  - `_parse_case_questions` and `generate_case_questions`.
  - `_parse_score` and `evaluate_answer`.
- **Quiz, Results** (`app/api/tests.py`, `app/api/results.py`)
  - Marking a submission, the score, and the 60 % pass rule.
  - The option checks on saved questions.
  - The student views, which drop the correct answers.
  - The detailed results view and the CSV pass column.
- **Table and the stores** (`app/crud/*.py`)
  - Each table is a class holding its rows in primary-key order and the next key.
  - The modelled operations are: upsert by course or by (student, test), duplicate rejection for case answers, publish and unpublish, partial updates, deletion and the filter queries.
- **Cors** (`app/core/config.py`): the comma-separated CORS settings read as lists.

Where the source loops or mutates, the model keeps that form: the registry,
the tables, and the loops of the parsers, the scorer and the chunker are
Dafny methods and loops. Each is proved equal to a specification function.
The listed properties are proved about those functions as lemmas.

Notes on the source that the model follows:

- `clean_text_with_ollama` always sends the cleaning prompt (`app/services/llm_service.py:210`).
  - The finalization prompt chosen in the pipeline therefore reaches only cloud providers.
  - The prompt built at `app/services/llm_service.py:606` is never used.
- The two-stage cloud path never chunks.
- `pipeline_used` says "NER + LLM" even when the NER stage failed and the raw text was used.
- A submitted `question_id` is only checked against `< len(questions)`, so Python's negative indexing applies:
  - an id from minus the length up to -1 picks a question counted from the end;
  - an id below minus the length raises `IndexError`, modelled as an error result.

  This holds both when scoring (`app/api/tests.py:198`) and when showing results (`app/api/results.py:190`).
- Duplicate ids are each counted.
- `config.py` defines no `LLM_*` settings, although the LLM services read them. Provider, model, URLs and key are therefore parameters of the model.

## Model

| member | source | states |
|---|---|---|
| Placeholders.Registry.constructor | app/services/ner_service.py:13-16 | a fresh registry has all four counters at zero |
| Placeholders.Registry.Reset | app/services/ner_service.py:19-25 | afterwards all four counters are zero, whatever they held |
| Placeholders.Registry.Next | app/services/ner_service.py:28-53 | only the requested category's counter moves, by exactly one, and the placeholder returned carries that counter's new value |
| Placeholders.Counters.Bump | app/services/ner_service.py:28-53 | minting one placeholder raises its own category's counter by one and leaves the other three unchanged |
| Placeholders.PlaceholderTagged | app/services/ner_service.py:28-53 | a placeholder begins with its own category's `[TAG-` head and with no other category's |
| Placeholders.PlaceholderInjective | app/services/ner_service.py:28-53 | two placeholders are equal only when their category and their number are equal |
| Ner.FlatTagUntagged | app/services/ner_service.py:119-189 | no fixed tag such as `[ТЕЛЕФОН]` or `[EMAIL]` begins like a numbered placeholder |
| Ner.RegisterFirstFacts | app/services/ner_service.py:121-124 | registering one pattern's matches keeps the keys distinct, only appends entries, and every appended entry carries the pattern's tag |
| Ner.RegisterFirstKeys | app/services/ner_service.py:121-124 | afterwards the keys are exactly the old keys plus the matched literals |
| Ner.FlatPassFacts | app/services/ner_service.py:119-189 | the flat-category loops only append entries, each one a fixed tag, and leave the text produced by the last substitution |
| Ner.FlatFirstMatchWins | app/services/ner_service.py:119-189 | every literal any flat pattern matches ends up registered; a literal new to the dictionary carries the tag of the first pattern, in the fixed order phone, e-mail, ИНН, БИН, СНИЛС, passport, plate, account, card, that matched it |
| Ner.FlatPassUntagged | app/services/ner_service.py:119-189 | the flat categories mint no numbered placeholder of any kind |
| Ner.AddressFoldShape | app/services/ner_service.py:194-198 | one address pattern adds one entry per literal not yet registered and moves the address counter by exactly as much; a repeated literal adds nothing |
| Ner.AddressFoldTagged | app/services/ner_service.py:194-198 | the address placeholders one pattern adds are `[АДРЕС-c+1]`, `[АДРЕС-c+2]`, … in order, c being the counter before it; no other kind is added |
| Ner.AddressPassShape | app/services/ner_service.py:192-198 | over all address patterns the entries added equal the rise of the address counter, and the dictionary keeps distinct keys |
| Ner.AddressPassTagged | app/services/ner_service.py:192-198 | over all address patterns the address placeholders are numbered consecutively from the starting counter |
| Ner.RegexPassFacts | app/services/ner_service.py:111-201 | the regex pass yields one entry per distinct literal, and its only numbered placeholders are `[АДРЕС-c+1]` … `[АДРЕС-n]` in order, n being the final address counter |
| Ner.EntityKindFilter | app/services/ner_service.py:236-258 | an entity gets no placeholder exactly when its label is none of PER, PERSON, ORG, LOC, GPE, or it is a LOC/GPE of at most three characters or whose lower-case form is город, село, район or область |
| Ner.RegisterEntitiesSplit | app/services/ner_service.py:229-258 | the entity loop over `a + b` is the loop over `b` started from the state the loop over `a` leaves |
| Ner.RegisterEntitiesShape | app/services/ner_service.py:229-258 | the entity loop keeps the keys distinct, only appends entries, and each entry it adds raised exactly one of the person, organisation and place counters |
| Ner.RegisterEntitiesTagged | app/services/ner_service.py:229-258 | the placeholders of each kind the entity loop mints are that kind's next numbers, consecutive and in order |
| Ner.RepeatedEntitySkipped | app/services/ner_service.py:232-234 | a later occurrence of an entity text already registered changes nothing, whatever label it carries, and the text keeps its placeholder to the end of the document |
| Ner.KeptThrough | app/services/ner_service.py:229-258 | a registered entity text keeps its placeholder for the rest of the loop |
| Ner.FirstEntityFixesPlaceholder | app/services/ner_service.py:229-258 | the first occurrence of an entity text with a usable label fixes its placeholder for the whole document: the next number of the kind its label selects |
| Ner.FilteredEntityIgnored | app/services/ner_service.py:236-258 | an entity with an unused label, or a short or generic place, registers nothing and moves no counter |
| Ner.PreprocessOutcome | app/services/ner_service.py:270-338 | pre-processing succeeds exactly when the spaCy model loads; a failure has no text, empty replacements, empty statistics and the prefixed error message |
| Ner.PreprocessNumbering | app/services/ner_service.py:292-314 | every document is numbered from 1: the statistics counts are the lengths of the runs `[ЛИЦО-1..n]`, `[ОРГ-1..n]`, `[ГЕО-1..n]` minted by the entity pass and `[АДРЕС-1..n]` minted by the regex pass, and neither pass mints the other's kinds |
| Ner.PreprocessStats | app/services/ner_service.py:304-314 | persons + organizations + locations equals ner_replacements, addresses is at most regex_replacements, and total_replacements is the merged dictionary's size, at most regex plus ner |
| Ner.PreprocessLookup | app/services/ner_service.py:304 | in the merged replacements an entity entry overrides a regex entry for the same text |
| Ner.RegisterMatches | app/services/ner_service.py:121-124 | the inner match loop computes the first-registration fold `RegisterFirst` |
| Ner.ReplaceFlat | app/services/ner_service.py:119-189 | the flat-category loops compute `FlatPass` |
| Ner.MintAddresses | app/services/ner_service.py:194-198 | the match loop of one address pattern computes `AddressFold`, the registry's address counter tracking the stage's counter and the other counters untouched |
| Ner.ReplaceAddresses | app/services/ner_service.py:192-198 | the address loop computes `AddressPass`, with the same counter bookkeeping |
| Ner.ReplaceWithRegex | app/services/ner_service.py:111-201 | `replace_with_regex` computes `RegexPass` from the current address counter and moves no other counter |
| Ner.RegisterEntity | app/services/ner_service.py:229-258 | one loop iteration is `EntityStep` on the dictionary and the registry's counters |
| Ner.RegisterStripped | app/services/ner_service.py:232-258 | the iteration, once the stripped text and label kind are known, is `StepWith` |
| Ner.ExtractEntities | app/services/ner_service.py:218-267 | the entity loop computes `RegisterEntities` from the registry's counters, and the text is the word-bounded substitution of every entry in registration order |
| Ner.PreprocessWithNer | app/services/ner_service.py:270-338 | `preprocess_with_ner` computes `Preprocess` whatever the registry held before, and on success the registry's counters are the reported statistics |
| OrderedDict.Put | app/services/ner_service.py:304 | assigning a key makes lookups of it return the new value, leaves other keys' lookups alone, keeps a present key's position and appends a new key last |
| OrderedDict.PutValid | app/services/ner_service.py:304 | assignment keeps the keys distinct |
| OrderedDict.Merge | app/services/ner_service.py:304 | the keys of `{**a, **b}` are the keys of `a` and of `b` |
| OrderedDict.MergeGet | app/services/ner_service.py:304 | a lookup in `{**a, **b}` finds `b`'s value when `b` has the key and `a`'s otherwise |
| OrderedDict.MergeSize | app/services/ner_service.py:304-309 | the merged dictionary has one entry per distinct key, so at most as many as both together |
| OrderedDict.SizeIsKeyCount | app/services/ner_service.py:307-309 | `len` of a dictionary is the number of its distinct keys |
| Chunking.ShortTextSingleChunk | app/services/llm_service.py:343-344 | a text within the limit is one chunk, returned as it is and not stripped |
| Chunking.ChunkIsStrippedGroup | app/services/llm_service.py:350-361 | above the limit, chunk k is the stripped `"\n\n"`-join of the k-th group of consecutive paragraphs |
| Chunking.GroupsFlatten | app/services/llm_service.py:350-361 | the groups, read in order, are exactly the paragraphs: none is split, dropped or reordered |
| Chunking.ChunksCoverText | app/services/llm_service.py:350-361 | joining all grouped paragraphs with `"\n\n"` gives the original text back |
| Chunking.GroupsFit | app/services/llm_service.py:353-358 | every group is a single paragraph or its joined text fits within the limit |
| Chunking.ChunkBound | app/services/llm_service.py:353-358 | every chunk is at most the limit long, unless it is one paragraph that alone exceeds the limit |
| Chunking.LongTextSplits | app/services/llm_service.py:343-361 | a text over the limit that contains a paragraph break yields at least two chunks |
| Chunking.BlockPush | app/services/llm_service.py:354 | adding a paragraph to the current chunk appends it followed by `"\n\n"` |
| Chunking.PlaceParagraph | app/services/llm_service.py:352-358 | one loop iteration keeps `current_chunk` the text of the open group and `chunks` the rendered closed groups, and moves one paragraph from the pending groups into them |
| Chunking.ChunkText | app/services/llm_service.py:332-364 | `chunk_text` returns exactly the chunks the grouping specification describes |
| Text.JoinSplit | app/services/llm_service.py:350 | joining the pieces of `split(sep)` with `sep` gives the string back |
| Text.StripAppendSpace | app/services/llm_service.py:357-361 | trailing whitespace, such as the separator after the last paragraph, never changes what `strip()` returns |
| Text.StripIdempotent | app/services/llm_service.py:241-243 | stripping twice is stripping once |
| Cleaning.PromptsFormat | app/services/llm_service_cloud.py:48 | formatting a prompt with `{text}` puts the text after the prompt's instructions |
| Cleaning.PromptsDiffer | app/services/llm_service.py:599 | a request built from the cleaning prompt never equals one built from the finalization prompt |
| Cleaning.OllamaSuccess | app/services/llm_service.py:205-247 | the Ollama call succeeds exactly when the server generated a non-empty response, which is returned stripped with the stripped length, with the original length and model |
| Cleaning.OllamaFailureShape | app/services/llm_service.py:249-283 | every Ollama failure has no text, cleaned length 0, the original length and an error message |
| Cleaning.OllamaErrorInitial | app/services/llm_service.py:249-283 | the error message starts with a letter that identifies the cause: connection, timeout or anything else |
| Cleaning.OllamaErrorNamesCause | app/services/llm_service.py:249-283 | two failures with the same message had the same kind of cause: connection, timeout and other errors are told apart |
| Cleaning.CloudSuccess | app/services/llm_service_cloud.py:36-97 | the cloud call succeeds exactly when the first choice has non-empty content, returned stripped with its length; a missing choice, missing content or empty content all fail with the same message, without text and with length 0 |
| Cleaning.LargeSingleChunk | app/services/llm_service.py:389-393 | with a single chunk, and so for any text within the limit, the driver makes one call on the whole text |
| Cleaning.LargeFirstFailure | app/services/llm_service.py:401-406 | with several chunks, the first failed chunk's result is returned as it is and later chunks are not cleaned |
| Cleaning.LargeSuccess | app/services/llm_service.py:397-425 | with several chunks all cleaned, the texts are joined with `"\n\n"`, both lengths are summed over the chunks and `chunks_processed` is the number of chunks |
| Cleaning.LargeFailsIffSomeChunkFails | app/services/llm_service_cloud.py:185-213 | with several chunks the driver fails exactly when some chunk fails |
| Cleaning.CollectSucceeds | app/services/llm_service_cloud.py:185-198 | when every call succeeds, the loop collects every output in order and sums both lengths |
| Cleaning.CollectStops | app/services/llm_service_cloud.py:189-194 | the loop stops with the first failed result |
| Cleaning.FirstFailed | app/services/llm_service_cloud.py:189-194 | when not every chunk succeeds there is a first failing chunk, all chunks before it succeeding |
| Cleaning.OllamaHonest | app/services/llm_service.py:240-247 | every successful Ollama result reports the length of its own text |
| Cleaning.CloudHonest | app/services/llm_service_cloud.py:78-85 | every successful cloud result reports the length of its own text |
| Cleaning.OutputsLength | app/services/llm_service.py:408-410 | with honest results, the summed cleaned length is the total length of the outputs |
| Cleaning.LargeSeams | app/services/llm_service.py:413-425 | a chunked result's `cleaned_length` leaves out the separators: the joined text is two characters longer per seam |
| Cleaning.CollectChunks | app/services/llm_service_cloud.py:185-198 | the chunk loop computes `CollectFrom`, stopping at the first failure |
| Cleaning.CleanLargeText | app/services/llm_service.py:367-425 | `clean_large_text_with_ollama` and `clean_large_text_with_cloud_llm` compute `LargeClean` with the given cleaner and limit |
| Llm.DispatchIsChunked | app/services/llm_service.py:472-498 | dispatch sends every text through the chunked driver with limit 8000 for Ollama and 12000 for the cloud, unless cloud credentials are missing |
| Llm.DispatchChecksCredentials | app/services/llm_service.py:480-488 | a cloud provider without a base URL or an API key fails with the credentials message whatever the endpoints would answer |
| Llm.CollectAgrees | app/services/llm_service.py:401-410 | cleaners that agree on each chunk make the chunk loop agree |
| Llm.LargeAgrees | app/services/llm_service.py:389-425 | cleaners that agree on the text and on each of its chunks make the chunked driver agree |
| Llm.PipelineSuccess | app/services/llm_service.py:634-657 | on success `pipeline_used` names the requested pipeline, the pre-processed text is reported exactly when NER was requested, and the cleaned length is the length of the cleaned text |
| Llm.ReportSuccess | app/services/llm_service.py:634-657 | the same facts for the result dictionary built from any LLM result |
| Llm.NerFallbackStillLabelled | app/services/llm_service.py:580-586 | without the spaCy model the LLM gets the raw text, `ner_stats` is empty, and a success is still labelled "NER + LLM" |
| Llm.NerStageHandsOn | app/services/llm_service.py:587-589 | a successful NER stage hands its pre-processed text and statistics on |
| Llm.LlmFailurePropagates | app/services/llm_service.py:634-643 | a failed LLM stage is reported with its own error, no text, length 0 and the NER statistics |
| Llm.PipelineChecksCredentials | app/services/llm_service.py:617-628 | missing cloud credentials fail the pipeline whatever the endpoints would answer, keeping the NER statistics |
| Llm.OllamaSendsOnlyCleaningPrompt | app/services/llm_service.py:604-615 | on Ollama the finalization prompt is never sent: servers that answer every cleaning prompt alike give the same result, with or without NER |
| Llm.CloudMakesOneCall | app/services/llm_service.py:597-632 | on a cloud provider the pipeline makes one call, on the whole pre-processed text however long, with the finalization prompt exactly when NER was requested |
| Llm.PipelineCountsSeams | app/services/llm_service.py:607-652 | over several Ollama chunks the pipeline's `cleaned_length` is the joined text's length, larger than the driver's summed length by two per seam |
| Text.Strip | app/services/case_questions_service.py:207-208 | `strip()` removes whitespace from both ends only: the result is no longer than the input, starts and ends with a non-space, and is empty exactly when the input is all whitespace |
| Text.NonBlankStripped | app/services/openai_functions.py:33 | the comprehension keeps exactly the pieces that are not blank once stripped, each in its stripped form and never empty |
| Text.BlocksStripped | app/services/openai_functions.py:33 | every kept piece is non-empty and already stripped |
| Text.SplitCharCount | app/core/config.py:32 | splitting on one character gives one more piece than there are occurrences of it |
| Text.JoinLength | app/services/llm_service.py:413 | a joined string is as long as its pieces plus one separator for each pair of neighbours |
| Text.FormatFieldAtEnd | app/services/llm_service_cloud.py:48 | formatting a template that ends in the single `{text}` field gives the instructions followed by the text |
| Text.DigitsValueOfNatToString | app/services/answer_evaluation_service.py:144 | `int(str(n)) == n` for every non-negative n |
| Text.NatToStringInjective | app/services/ner_service.py:28-53 | distinct numbers are rendered as distinct decimal strings |
| Text.Lower | app/services/ner_service.py:254 | lower-casing keeps the length |
| Text.LowerCase | app/services/ner_service.py:254 | lower-casing leaves no ASCII or basic Cyrillic capital, changes every such capital and leaves every other character in place |
| Score.FindRun | app/services/answer_evaluation_service.py:142 | the search returns the first position where a standalone digit run starts, and finds nothing only when there is no such position |
| Score.Clamp | app/services/answer_evaluation_service.py:146-150 | a value in 0..100 is kept, a larger one becomes 100 |
| Score.ScoreOf | app/services/answer_evaluation_service.py:142-158 | the score read from a reply is always in 0..100 |
| Score.ParseScore | app/services/answer_evaluation_service.py:126-158 | `_parse_score` always returns an integer in 0..100 |
| Score.ScoreOfDigits | app/services/answer_evaluation_service.py:142-150 | a reply made only of digits scores their value, capped at 100 |
| Score.ScoreOfNumeral | app/services/answer_evaluation_service.py:144-150 | a reply that is the decimal form of n scores n when n is at most 100 and 100 otherwise |
| Score.NoDigitsScoresZero | app/services/answer_evaluation_service.py:151-158 | a reply without any digit scores 0 |
| Score.EvaluateOutcome | app/services/answer_evaluation_service.py:105-123 | `evaluate_answer` gives a grade exactly when the first choice has non-empty content, and the grade is `_parse_score` of that content, in 0..100 |
| CaseQuestions.Primary | app/services/case_questions_service.py:206-228 | the primary strategy yields at most one pair per block; every pair is what some block gives, and every block that gives a pair contributes it |
| CaseQuestions.Fallback | app/services/case_questions_service.py:237-249 | the fallback strategy yields at most one pair per part; every pair is what some part gives, and every part that gives a pair contributes it |
| CaseQuestions.PrimaryBlockShape | app/services/case_questions_service.py:207-226 | a block yields a pair exactly when it is not blank and the `ВОПРОС n … ОТВЕТ n` pattern matches its stripped text; the pair's question and answer are stripped |
| CaseQuestions.FallbackPartShape | app/services/case_questions_service.py:238-249 | a fallback pair has non-empty, stripped text: the question is the part with everything from `ОТВЕТ n` on removed, the answer the group after `ОТВЕТ n` |
| CaseQuestions.PrimaryStripped | app/services/case_questions_service.py:206-228 | every pair of the primary strategy is stripped |
| CaseQuestions.FallbackNonEmpty | app/services/case_questions_service.py:237-249 | every pair of the fallback strategy has a non-empty, stripped question and answer |
| CaseQuestions.ParsedPairs | app/services/case_questions_service.py:201-252 | every pair returned is stripped; the fallback runs only when the primary strategy found nothing, and then no returned pair is empty |
| CaseQuestions.PrimaryAppend | app/services/case_questions_service.py:206-228 | pairs come out in block order: parsing two runs of blocks gives the first run's pairs, then the second's |
| CaseQuestions.ReadBlock | app/services/case_questions_service.py:207-228 | one iteration of the first loop is the primary strategy on that block |
| CaseQuestions.ReadPart | app/services/case_questions_service.py:238-249 | one iteration of the second loop is the fallback strategy on that part |
| CaseQuestions.ReadBlocks | app/services/case_questions_service.py:204-228 | the first loop collects the primary strategy's pairs in block order |
| CaseQuestions.ReadParts | app/services/case_questions_service.py:234-249 | the second loop collects the fallback strategy's pairs in part order |
| CaseQuestions.ParseCaseQuestions | app/services/case_questions_service.py:177-252 | `_parse_case_questions` returns the primary pairs, or the fallback pairs when there are none |
| CaseQuestions.GenerateOutcome | app/services/case_questions_service.py:153-174 | the generator succeeds exactly when the first choice has non-empty content that parses to at least one pair, and then returns those pairs; an empty reply fails with the empty-response message |
| Situational.Index | app/services/openai_functions.py:67-68 | the letters A to D select the options 0 to 3 |
| Situational.ParseBlocks | app/services/openai_functions.py:35-80 | there are at most as many questions as non-empty blocks, and every question is what some block gives |
| Situational.ParseBlocksKeeps | app/services/openai_functions.py:35-80 | every block that gives a question contributes it |
| Situational.ParseBlockShape | app/services/openai_functions.py:36-74 | a block yields a question exactly when the question, the four options and the letter are all found; the question is the stripped situation text, a blank line and the stripped question text, the options are stripped and the correct answer is the option the letter names |
| Situational.ParsedWellFormed | app/services/openai_functions.py:54-73 | every parsed question has exactly four options and its correct answer among them |
| Situational.ParseBlocksAppend | app/services/openai_functions.py:35-80 | questions come out in block order |
| Situational.ParseSituation | app/services/openai_functions.py:36-74 | one loop iteration, with each `continue`, is the block parser |
| Situational.ParseSituationalTests | app/services/openai_functions.py:14-80 | `_parse_situational_tests` returns the questions of the non-blank blocks between `Ситуация N` headers, in order |
| Situational.CheckStructure | app/services/openai_functions.py:321-328 | the check accepts the list unchanged exactly when every question has four options, and otherwise fails with the four-options message |
| Situational.ParsedPassesCheck | app/services/openai_functions.py:318-325 | the check never rejects what the parser produced |
| Quiz.QuestionAt | app/api/tests.py:198 | an id at or above the length finds no question, an id in range finds its question with Python's negative indexing, and an id below minus the length raises |
| Quiz.CountCorrect | app/api/tests.py:201-203 | there are never more correct answers than answers |
| Quiz.MarkAllShape | app/api/tests.py:196-208 | scoring fails exactly when some id is below minus the length; otherwise the stored list has the submission's length and order, each answer with the flag "id passes the bound and the selected answer is that question's correct answer" |
| Quiz.MarkAllAppend | app/api/tests.py:196-208 | marking a submission split in two marks each half in turn |
| Quiz.ScoreAdds | app/api/tests.py:193-208 | the score of a submission split in two is the sum of the halves' scores, so an answer submitted twice counts twice |
| Quiz.SubmissionBounds | app/api/tests.py:189-214 | the score is at most the number of answers, the total is the number of questions, a test without questions is never passed, and passed means 100·score ≥ 60·total |
| Quiz.MarkOne | app/api/tests.py:198-208 | one loop iteration marks one answer |
| Quiz.ScoreSubmission | app/api/tests.py:189-214 | the loop yields the marked answers, their count of correct ones, the number of questions and the 60 % verdict |
| Quiz.Problem | app/api/tests.py:330-340 | a question is rejected exactly when it has fewer than two options or its correct answer is not one of them |
| Quiz.ValidationOutcome | app/api/tests.py:330-340 | the questions are accepted exactly when each is acceptable; a rejection names the first question that is not |
| Quiz.ValidateQuestions | app/api/tests.py:379-389 | the validation loop returns the first rejection, if any |
| Quiz.ForStudent | app/api/tests.py:44-51 | the student view has one question per question of the test |
| Quiz.ViewHidesAnswers | app/api/tests.py:40-52 | two tests look the same to a student exactly when they have the same questions and options in the same order, whatever their correct answers |
| Quiz.ViewAt | app/api/tests.py:96-104 | student question k has id k and the text and options of question k |
| Quiz.Entry | app/api/tests.py:37-53 | a course contributes at most one test, and only its own |
| Quiz.AvailableFromCourses | app/api/tests.py:35-55 | every listed test belongs to one of the listed courses, and there are at most as many tests as courses |
| Quiz.AvailableAbove | app/api/tests.py:35-55 | courses above a key list only tests of courses above that key |
| Quiz.AvailableIncreasing | app/api/tests.py:35-55 | over courses in key order, the listed tests' courses strictly increase |
| Quiz.StudentTestsPublished | app/api/tests.py:29-55 | `get_tests` lists at most `limit` tests, each of a published course, and no course twice |
| Quiz.GetTests | app/api/tests.py:18-55 | `get_tests` returns the student views of the tests of one page of published courses, in course order |
| Results.DetailsOutcome | app/api/results.py:187-200 | showing the answers fails exactly when one has an id below minus the length; otherwise every shown answer comes from a stored answer in range, with the test's question, options and correct answer and the stored choice and flag |
| Results.DetailsInRange | app/api/results.py:187-200 | when every id is a valid index, every stored answer is shown, in order |
| Results.ShownFlagsAgree | app/api/results.py:188-200 | for answers stored by the scoring loop and shown against the same test, the flag says exactly whether the selected answer is the correct one |
| Results.DetailedMadeFrom | app/api/results.py:182-218 | a stored result is shown at most once, with its own key, student, score and total, and passed by the 60 % rule |
| Results.EnrichOutcome | app/api/results.py:179-220 | there are at most as many detailed results as stored ones, each made from one of them |
| Results.SkipsMissingTest | app/api/results.py:182-184 | a result whose test no longer exists is left out and changes nothing else |
| Results.MyResultsAreOwn | app/api/results.py:163-220 | the listing fails only for a missing course or a stored negative id; every listed result is the student's own and belongs to a test of the course |
| Results.EnrichFails | app/api/results.py:187-200 | enrichment fails only on a stored answer with a negative id |
| Results.DescribeOne | app/api/results.py:189-200 | one inner iteration shows the answer when its id passes the bound, nothing at or above it, and raises below minus the length |
| Results.DescribeAll | app/api/results.py:187-200 | the inner loop computes the shown answers |
| Results.DetailOne | app/api/results.py:182-218 | one outer iteration computes the detailed result, or nothing when the test is missing |
| Results.GetMyResultsByCourse | app/api/results.py:148-220 | `get_my_results_by_course` computes its specification over the tables |
| Results.CsvPassed | app/api/results.py:97-99 | the export writes "Yes" exactly when there are questions and 100·score ≥ 60·total, and "No" otherwise |
| Results.CsvAgrees | app/api/results.py:97-99 | the export's column and the detailed view's `passed` agree |
| Table.FirstWhere | app/crud/test.py:10-11 | `.filter(p).first()` finds the first matching row, or none exactly when no row matches |
| Table.KeyIndex | app/crud/test.py:6-7 | the key lookup finds the first row with that key, or none exactly when no row has it |
| Table.Get | app/crud/course.py:7-8 | a key lookup finds a row exactly when some row has that key, and then a row of the table with that key |
| Table.KeyIndexAt | app/crud/course.py:7-8 | in a table in key order a key is found at its own position |
| Table.GetMember | app/crud/course.py:7-8 | in a table in key order every row is what its key finds |
| Table.Where | app/crud/course.py:18-19 | `.filter(p).all()` returns only rows of the table that match |
| Table.WhereKeeps | app/crud/course.py:18-19 | the filter keeps every matching row |
| Table.WhereAppend | app/crud/course.py:18-19 | filtering keeps table order |
| Table.WhereAscending | app/crud/course.py:18-20 | a filtered table is still in key order |
| Table.Page | app/crud/course.py:20 | `.offset(skip).limit(limit)` is the window of at most `limit` rows starting at `skip` |
| Table.PageAscending | app/crud/course.py:20 | a window of a table in key order is in key order |
| Table.SetAt | app/crud/test.py:20-26 | an in-place update changes one row's value, keeps its key and changes no other row |
| Table.RemoveAt | app/crud/test.py:49-55 | a deletion removes one row and keeps the others in order |
| Table.Modify | app/crud/test.py:39-46 | an update by key keeps the table's length and keys |
| Table.ModifyAt | app/crud/test.py:39-46 | an update by key changes only the row with that key, and only its value, and keeps the table valid |
| Table.InsertValid | app/crud/test.py:29-36 | an insert under the next key keeps the table valid |
| Table.SetAtValid | app/crud/test.py:20-26 | an in-place update keeps the table valid |
| Table.RemoveAtValid | app/crud/test.py:49-55 | a deletion keeps the table valid and the deleted key is gone |
| Table.RemoveAtRows | app/crud/test.py:49-55 | a deletion keeps exactly the rows with other keys |
| Table.SetAtKeys | app/crud/test.py:20-26 | an in-place update keeps every key lookup finding a row exactly when it did before |
| Table.UpsertKeeps | app/crud/test.py:18-36 | an upsert keeps the table valid and at most one row per record key; it overwrites in place when the key has a row and appends one row otherwise |
| Table.UpsertFinds | app/crud/test.py:18-36 | after an upsert the first row with the record key holds exactly the given record |
| TestStore.ByCourse | app/crud/test.py:10-11 | `get_test_by_course` finds a test of the course, or none exactly when the course has none |
| TestStore.CreatedTest | app/crud/test.py:18-36 | afterwards the course's test holds exactly the given questions, at most one test per course; an existing test keeps its key and no row is added, otherwise exactly one row is added |
| TestStore.Tests.CreateTest | app/crud/test.py:18-36 | `create_test` performs that upsert and returns the course's test; the key counter moves only on an insert |
| TestStore.Tests.UpdateTest | app/crud/test.py:39-46 | `update_test` changes only the questions of the test with that key, and returns none and changes nothing for a missing key |
| TestStore.Tests.DeleteTest | app/crud/test.py:49-55 | `delete_test` returns true exactly when the test existed; afterwards it is gone and the other rows are unchanged |
| SummaryStore.ByCourse | app/crud/summary.py:9-10 | `get_summary_by_course` finds a summary of the course, or none exactly when the course has none |
| SummaryStore.CreatedSummary | app/crud/summary.py:17-35 | afterwards the course's summary holds exactly the given content, at most one per course; an existing summary keeps its key and no row is added |
| SummaryStore.Summaries.CreateSummary | app/crud/summary.py:17-35 | `create_summary` performs that upsert and returns the course's summary |
| SummaryStore.Summaries.UpdateSummary | app/crud/summary.py:38-45 | `update_summary` changes only the content, and returns none for a missing key |
| SummaryStore.Summaries.DeleteSummary | app/crud/summary.py:48-54 | `delete_summary` returns true exactly when the summary existed; afterwards it is gone |
| TestResultStore.Results | app/crud/test_result.py:14-32 | `get_test_results` returns at most `limit` stored results, only of the course when one is given |
| TestResultStore.ByStudent | app/crud/test_result.py:35-47 | the by-student query returns at most `limit` results, only the student's |
| TestResultStore.ByTest | app/crud/test_result.py:50-62 | the by-test query returns at most `limit` results, only the test's |
| TestResultStore.ByStudentAndTest | app/crud/test_result.py:88-104 | the pair's lookup finds a result of that student and test, or none exactly when there is none |
| Table.PageWhere | app/crud/test_result.py:32 | a filtered, paged query returns at most `limit` rows, each a row of the table that satisfies the filter |
| Table.PageWhereComplete | app/crud/test_result.py:32 | a first page at least as long as the table holds exactly the matching rows |
| TestResultStore.ByStudentComplete | app/crud/test_result.py:35-47 | such a page of the student's results holds exactly the student's rows |
| TestResultStore.ByTestComplete | app/crud/test_result.py:50-62 | such a page of the test's results holds exactly the test's rows |
| TestResultStore.ResultsOfCourse | app/crud/test_result.py:26-32 | with a course, such a page holds exactly the results whose test exists and belongs to the course |
| TestResultStore.ByStudentAndCourseMembers | app/crud/test_result.py:65-85 | the student's results in a course are exactly the student's rows whose test belongs to the course |
| TestResultStore.SubmittedResult | app/crud/test_result.py:150-182 | resubmitting overwrites the pair's result under the same key and adds no row; a first submission adds one row; afterwards the pair's result is the one given, and at most one result per pair is preserved |
| TestResultStore.TestResults.CreateTestResult | app/crud/test_result.py:107-125 | `create_test_result` appends one row under the next key |
| TestResultStore.TestResults.UpdateTestResult | app/crud/test_result.py:128-147 | `update_test_result` changes answers, score and total of that key only, and returns none for a missing key |
| TestResultStore.TestResults.CreateOrUpdateTestResult | app/crud/test_result.py:150-182 | `create_or_update_test_result` performs the upsert by (student, test), returns the pair's result and keeps it unique |
| TestResultStore.TestResults.DeleteTestResult | app/crud/test_result.py:185-191 | `delete_test_result` returns true exactly when the result existed; afterwards it is gone |
| CaseResultStore.ResultFor | app/crud/case_result.py:163-182 | the pair's lookup finds an answer of that question and student, or none exactly when there is none |
| CaseResultStore.Graded | app/crud/case_result.py:46-60 | without a text answer there is no score, and a score is always in 0..100 |
| CaseResultStore.SubmissionOutcome | app/crud/case_result.py:33-70 | a submission is refused exactly when the question does not exist or the student already answered it; otherwise the stored answer is the one sent, with a score in 0..100 if any |
| CaseResultStore.NoAnswerNoGrading | app/crud/case_result.py:46-48 | without a text answer the evaluation model is not consulted and no score is stored |
| CaseResultStore.FailedGradingStillStored | app/crud/case_result.py:49-60 | a failed evaluation still stores the answer, without a score |
| CaseResultStore.GradeFromReply | app/crud/case_result.py:51-55 | a score is stored exactly when the model's first choice has content, and it is the score parsed from it |
| CaseResultStore.SubmissionKeepsInvariant | app/crud/case_result.py:62-75 | storing an accepted answer keeps the table valid, one answer per (question, student) and every score a grade |
| CaseResultStore.StudentResults | app/crud/case_result.py:92-112 | the by-student query returns at most `limit` answers, only the student's |
| CaseResultStore.ResultsByTest | app/crud/case_result.py:115-135 | the by-question query returns at most `limit` answers, only to that question |
| CaseResultStore.ResultsByCase | app/crud/case_result.py:138-160 | the by-case query returns at most `limit` answers, only to questions of the case |
| CaseResultStore.ResultsByCaseComplete | app/crud/case_result.py:138-160 | a first page at least as long as the table holds exactly the answers to questions of the case |
| CaseResultStore.RescoreKeepsInvariant | app/crud/case_result.py:201-208 | setting a grade in 0..100 keeps one answer per pair and every score a grade |
| CaseResultStore.RemoveKeepsInvariant | app/crud/case_result.py:222-227 | removing an answer keeps one answer per pair and every score a grade |
| CaseResultStore.CaseResults.CreateCaseResult | app/crud/case_result.py:13-75 | `create_case_result` stores nothing and fails with the matching message for a missing question or a repeated answer; otherwise it appends the accepted answer under the next key |
| CaseResultStore.CaseResults.UpdateCaseResultScore | app/crud/case_result.py:185-208 | `update_case_result_score` changes only the score of that key, and returns none for a missing key |
| CaseResultStore.CaseResults.DeleteCaseResult | app/crud/case_result.py:211-227 | `delete_case_result` returns true exactly when the answer existed; afterwards it is gone |
| CaseStore.StatusOrDraft | app/crud/case.py:51 | a missing status defaults to draft, a given one is kept |
| CaseStore.NewCase | app/crud/case.py:44-56 | `create_case` stores the request's fields with its creator, a draft unless a status was given |
| CaseStore.CaseFromPdfRecord | app/crud/case.py:59-75 | `create_case_from_pdf` stores what `create_case` would, with the cleaned text as the case's cleaning text |
| CaseStore.ApplyUpdate | app/crud/case.py:84-86 | a partial update gives each field set in the request its new value, changes no other field and never the creator |
| CaseStore.Newest | app/crud/case.py:26 | newest first is the table read backwards |
| CaseStore.Listing | app/crud/case.py:12-29 | `get_cases` returns at most `limit` cases of the table, only of the given status when one is given |
| CaseStore.NewestDescending | app/crud/case.py:26 | a table in key order read backwards has strictly decreasing keys |
| CaseStore.PageDescending | app/crud/case.py:29 | a window of a newest-first list is newest first |
| CaseStore.ListingNewestFirst | app/crud/case.py:12-29 | the listing is newest first: keys strictly decrease along it |
| CaseStore.StatusIdempotent | app/crud/case.py:93-114 | publishing twice is publishing once, and unpublishing twice is unpublishing once |
| CaseStore.UnpublishUndoesPublish | app/crud/case.py:93-114 | unpublishing a case just published from draft restores the table |
| CaseStore.Cases.CreateCase | app/crud/case.py:44-56 | `create_case` appends the new case under the next key |
| CaseStore.Cases.CreateCaseFromPdf | app/crud/case.py:59-75 | `create_case_from_pdf` appends the new case under the next key |
| CaseStore.Cases.UpdateCase | app/crud/case.py:78-90 | `update_case` applies the partial update to that key only, and returns none for a missing key |
| CaseStore.Cases.PublishCase | app/crud/case.py:93-102 | `publish_case` sets only the status to published, and returns none for a missing key |
| CaseStore.Cases.UnpublishCase | app/crud/case.py:105-114 | `unpublish_case` sets only the status to draft, and returns none for a missing key |
| CaseStore.Cases.DeleteCase | app/crud/case.py:117-124 | `delete_case` returns true exactly when the case existed; afterwards it is gone |
| CourseStore.ApplyUpdate | app/crud/course.py:54-56 | a partial update gives each field set in the request its new value, changes no other field and never the creator |
| CourseStore.Listing | app/crud/course.py:11-20 | `get_courses` returns at most `limit` courses of the table, only of the given status when one is given |
| CourseStore.PublishIdempotent | app/crud/course.py:63-71 | publishing twice is publishing once |
| CourseStore.PublishedCourse | app/crud/course.py:63-71 | after publishing, the course with that key, if any, is published and otherwise unchanged, and every other course is untouched |
| CourseStore.Courses.CreateCourse | app/crud/course.py:34-46 | `create_course` appends a draft under the next key |
| CourseStore.Courses.UpdateCourse | app/crud/course.py:49-60 | `update_course` applies the partial update to that key only, and returns none for a missing key |
| CourseStore.Courses.PublishCourse | app/crud/course.py:63-71 | `publish_course` sets only the status to published, and returns none for a missing key |
| CourseStore.Courses.DeleteCourse | app/crud/course.py:74-80 | `delete_course` returns true exactly when the course existed; afterwards it is gone |
| Cors.StripEach | app/core/config.py:32 | the comprehension strips each piece and keeps their number and order |
| Cors.Entries | app/core/config.py:28-46 | exactly `"*"` gives `["*"]`; any other value gives one stripped entry per comma-separated piece, commas plus one of them, empty entries kept |
| Cors.EntriesRoundTrip | app/core/config.py:32 | a list written without spaces around its entries reads back as written, and joining its entries with commas gives the setting again |

## Left out

- Network calls to Ollama, OpenAI and OpenRouter are oracles (function-valued parameters).
  - Temperatures, token limits, timeouts and the exact prompt wording are not modelled.
  - A prompt is opaque instructions followed by the `{text}` field.
- Python's regular expression semantics and the spaCy model are oracles. The model states how their results are registered and substituted.
  - Word-bounded substitution uses an oracle for `re.sub(r'\b…\b')`.
  - `_parse_score`'s `\b(\d+)\b` is modelled exactly for ASCII digits and for word characters that are ASCII letters, `_` or letters of the Cyrillic block U+0400-U+04FF (its sign U+0482 and marks U+0483-U+0489 are not word characters). Other Unicode digits and letters are not.
- Text.Lower: lowers only ASCII A-Z and the basic Cyrillic capitals U+0400-U+042F. Python's `str.lower` also lowers other scripts (Latin-1 accented letters, Greek, the rest of Cyrillic) and can lengthen a string ('İ' becomes two characters). Its only use is the generic-place test of `extract_entities`. That test is unaffected, because no character outside the modelled capitals lowers to a letter of город, село, район or область.
- Exception handlers that no modelled input can reach are not modelled:
  - the `except` clauses of the chunked drivers and of the pipeline;
  - exceptions in `preprocess_with_ner` other than a failed spaCy load;
  - the "any exception gives an empty list" clause of `_parse_case_questions`, since its oracles are total.
- `load_spacy_models` is modelled only through its outcome: the model is loaded or it is not.
- `test_ollama_connection` and the other connection probes are pure I/O.
- Floating-point percentages are not modelled: the pass rule is the integer rule 100·score ≥ 60·total. `percentage` itself is not part of any result.
- CSV formatting, streaming and the BOM of `export_results` are left out, apart from the `Passed` column.
- pdf_service relabels pipeline results and is not part of this model; its label "LLM only" differs in case from the pipeline's "LLM Only".
- The HTTP handlers' access checks (404 for missing records, 403 for other methodists' courses, role dependencies) and JWT authentication are left out. Only the loops and rules inside the handlers are modelled.
- `create_test` with `questions=None` would raise a `TypeError` in the validation loop. The model's question list is always a list.
- Pydantic validation of request bodies is left out:
  - an explicit `null` for a non-nullable field is modelled as a value of the field's type;
  - stored answers always carry an `is_correct` flag, as `submit_test` writes them, so the `False` default when showing results is never taken.
- Database realism is left out:
  - no ORM cascades and no server-side timestamps;
  - `.first()` without ordering is taken as the row with the lowest key;
  - `order_by(desc(created_at))` is taken as reverse key order, because keys are handed out in creation order.
- The database constraint `uq_test_student` is modelled as an invariant of the case-result table, not as a failing commit.
- `case_test` CRUD (the case questions' own table) is context only: the questions are a parameter of the case-result operations.
- CaseResultStore.CaseResults.UpdateCaseResultScore: requires a score in 0..100, which the request schema enforces; the function itself does not check it.
- TestResultStore.ResultsOfCourse: requires the tests table in key order, which every table of the model keeps as its invariant.
- CaseResultStore.ResultsByCaseComplete: requires the case-question table in key order, as every table of the model keeps.
- Quiz.StudentTestsPublished: requires the course table in key order, as every table of the model keeps.
