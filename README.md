# LM Studio batch runner: a verified model of its orchestration core

`lm_batch_runner.py` is a desktop tool that sends one prompt to every selected model of an
LM Studio server. For each model in turn it does the following:
- It clears the server's memory and loads the model.
- It asks the model for one chat completion.
- It writes the answer to a file named from a template.
- It unloads the model and waits a configurable delay before the next one.

A stop flag set from the window can end the batch at several checkpoints.

This project models that core in Dafny and proves properties of it.

- **Backend.** The server and the user are an environment `Env` of oracles indexed by the
  position of each request in the trace of requests made so far:
  - the listing a `GET /api/v0/models` returns;
  - whether an unload or load request is accepted;
  - the completion returned;
  - whether a file write succeeds;
  - whether the user has pressed Stop.

  A `World` holds that trace, the stop flag, `_currently_loaded_model` and the files written.
- **Residency controller** (module `Residency`):
  - `_get_loaded_models`, `_do_unload_request`, `_force_unload_all`, `_poll_loading`,
    `_load_model` and `_unload_model`, as functions from a world to a result and a new world;
  - lemmas for what each call guarantees, such as bounded attempts, residency requests only,
    success exactly when the final listing agrees, and which fields change.
- **Batch loop** (module `Batch`):
  - one model's turn (load, generate, save, tidy up, delay) and the loop of `_run_batch`;
  - lemmas: the count of counted models never exceeds the selection and equals it unless
    stopped, exactly one save per generated model, completions asked in selection order, and
    every stored file is the response of a selected model under that model's file name.
- **Application object** (module `Runner`): the class `BatchRunner` holds the mutable fields
  (`_stop_flag`, `_currently_loaded_model`, the request trace, the files). Each of its methods
  runs the source's loops in place and is proved to compute exactly the matching function of
  `Residency` or `Batch`.
- **Pure helpers:**
  - `_sanitize` and the file name (`Naming`);
  - the `<think>` stripping (`Thinking`);
  - the two file layouts (`Layout`);
  - the request body of `_generate` (`Request`);
  - the form checks of `_start_batch` (`Validation`);
  - the size table and model list built by `_refresh_models` (`Registry`);
  - Python's `strip`, `replace` and ASCII `lower` (`Strings`);
  - `Option` (`Wrappers`).

Where the program's written description and its code differ, the model follows the code:
- A catalog answer that is a bare list yields no models; only a dict with a `data` list
  yields rows.
- With "skip thinking" on, every `<think>…</think>` span is removed, not only a leading one.
- Only a blank or exactly `"0"` max-wait field means "no limit"; `"0.0"` is parsed as a
  number like any other.

## Model

| member | source | states |
|---|---|---|
| `Strings.TrimSpec` | lm_batch_runner.py:644-649 | `strip()` keeps a contiguous piece of the field, removes only whitespace around it, and the piece neither starts nor ends with whitespace |
| `Strings.TrimIdempotent` | lm_batch_runner.py:644-649 | stripping an already stripped field changes nothing |
| `Strings.TrimAllSpace` | lm_batch_runner.py:649-651 | a field of whitespace only strips to the empty string, so it counts as blank |
| `Strings.Lower` | lm_batch_runner.py:246 | the quantization name is lower-cased character by character, keeping its length |
| `Strings.ReplaceOneChar` | lm_batch_runner.py:720-721 | one `replace` of a single character maps every position independently |
| `Strings.ReplaceAbsent` | lm_batch_runner.py:531 | `replace` leaves a string without the pattern unchanged |
| `Naming.Sanitized` | lm_batch_runner.py:718-722 | the sanitized id has the id's length, contains none of the nine reserved characters, turns each reserved character into `_` and keeps every other character in place |
| `Naming.SanitizedIdempotent` | lm_batch_runner.py:718-722 | sanitizing twice is sanitizing once |
| `Naming.Sanitize` | lm_batch_runner.py:719-722 | the loop of one `replace` pass per reserved character computes exactly the sanitized id |
| `Naming.WithExtension` | lm_batch_runner.py:532-533 | the name always ends with the extension, and is changed exactly when it did not already end with it, by appending it once |
| `Naming.WithExtensionIdempotent` | lm_batch_runner.py:532-533 | applying the extension rule twice gives the same name |
| `Naming.FilenameHasExtension` | lm_batch_runner.py:529-533 | every built file name ends with the chosen extension |
| `Naming.FilenameIgnoresModelWithoutPlaceholder` | lm_batch_runner.py:667-669 | a template without `{model}` gives every model the same file name, which is why the start asks for confirmation |
| `Naming.DefaultTemplateFilename` | lm_batch_runner.py:529-533 | with the default template `{session}_{model}_response` the name is `<session>_<sanitized id>_response<ext>` for an id without `{` |
| `Thinking.FindFromFirst` | lm_batch_runner.py:527 | the search for a tag finds the first occurrence at or after the start, or reports that there is none |
| `Thinking.StripBlocks` | lm_batch_runner.py:527 | stripping never lengthens the content |
| `Thinking.NoOpenTagUnchanged` | lm_batch_runner.py:527 | content without `<think>` is left as it is |
| `Thinking.LeadingBlock` | lm_batch_runner.py:527 | a leading `<think>…</think>` block is dropped, ending at the first `</think>` (non-greedy) |
| `Thinking.StripsBlockAnywhere` | lm_batch_runner.py:527 | a block after plain text is removed and the text in front of it kept |
| `Thinking.StripsEveryBlock` | lm_batch_runner.py:527 | for text interleaved with any number of blocks, every block is removed and the text between them kept in order |
| `Thinking.SavedContentOfBlocks` | lm_batch_runner.py:526-527 | with skipping on, the saved content is the kept text, stripped; with skipping off it is the response untouched |
| `Thinking.NestedBlockKeepsTail` | lm_batch_runner.py:527 | with a nested block only the span up to the first `</think>` goes; the rest, including the outer `</think>`, stays |
| `Layout.Repeat` | lm_batch_runner.py:547-549 | the rule `c * 60` is 60 copies of the character |
| `Layout.FileTextParts` | lm_batch_runner.py:539-554 | the file is header, then the response untouched, then footer |
| `Layout.ContentRoundTrip` | lm_batch_runner.py:539-554 | `ContentOf`, which reads a file of either layout back given its metadata, inverts `FileText`: the response can always be read back, unchanged, from the file that holds it |
| `Layout.FileTextInjective` | lm_batch_runner.py:539-554 | two different responses with the same metadata never give the same file |
| `Layout.MarkdownFile` | lm_batch_runner.py:539-546 | with `.md` the file is exactly the Markdown layout: title, session, rules, response, time, TPS |
| `Layout.PlainFile` | lm_batch_runner.py:547-554 | any other extension gives the plain layout with a 60-`=` rule before the response and a 60-`-` rule after it |
| `Request.MaxTokens` | lm_batch_runner.py:438-439 | a token limit below 1 is sent as -1, and any other limit unchanged |
| `Request.BuildRequest` | lm_batch_runner.py:427-447 | the request names the model; it has a system message exactly when the system prompt is non-empty; the user message, one text part, is always last; the token limit is normalised; the temperature is present exactly when the default is not used |
| `Request.PromptsRoundTrip` | lm_batch_runner.py:427-436 | both prompts can be read back from the request unchanged |
| `Validation.MaxWait` | lm_batch_runner.py:649-656 | a blank or `"0"` field means no limit; any other field is accepted exactly when it parses, as the parsed number |
| `Validation.Decide` | lm_batch_runner.py:643-674 | the batch starts exactly when every check passes and the placeholder is present or confirmed, with the job made of the stripped fields; it is declined exactly when only the confirmation was refused |
| `Validation.ErrorOrder` | lm_batch_runner.py:651-666 | the first failing check decides the error: wait limit, then prompt, then folder, then whether it exists |
| `Validation.NothingSelected` | lm_batch_runner.py:671-674 | with every field valid, an empty selection is refused with its own error |
| `Validation.PaddedZeroMeansNoLimit` | lm_batch_runner.py:649-651 | a `"0"` padded with whitespace also means no limit |
| `Registry.Writes` | lm_batch_runner.py:233-246 | a size entry writes its key exactly when key and size are truthy, its `key@quant` alias exactly when it also has a quantization name, both to its size |
| `Registry.SizesComplete` | lm_batch_runner.py:229-248 | every key an entry writes ends up in the size table |
| `Registry.SizesLastWins` | lm_batch_runner.py:229-248 | a key keeps the size of the last entry that writes it |
| `Registry.SizesSound` | lm_batch_runner.py:229-248 | every key of the table was written by a usable entry, with a positive size |
| `Registry.BuildSizesMap` | lm_batch_runner.py:229-248 | the loop filling `sizes_map` computes exactly the size table |
| `Registry.Describe` | lm_batch_runner.py:255-268 | an entry without id and name is skipped; otherwise the id falls back to the name, the display name to the id, and the size is present exactly when the table has the id |
| `Registry.DescribeAll` | lm_batch_runner.py:254-268 | there are at most as many rows as entries, each with a non-empty id and display name |
| `Registry.CatalogModels` | lm_batch_runner.py:250-268 | a failed request or an answer that is not a dict with `data` gives no rows |
| `Registry.DescribeAllKeepsNamed` | lm_batch_runner.py:254-268 | every entry with an id or a name gives its row |
| `Registry.DescribeAllFromCatalog` | lm_batch_runner.py:254-268 | every row comes from a catalog entry |
| `Registry.RefreshModels` | lm_batch_runner.py:229-268 | the fetch-and-normalise steps of `_refresh_models` compute exactly the rows of the catalog with the size table |
| `Registry.Registered` | lm_batch_runner.py:270-294 | the checkbox table holds each listed id once and no other id |
| `Registry.RegisteredInOrder` | lm_batch_runner.py:292 | the checkbox table keeps the order of first insertion: an id comes before every id that first occurs later in the list, so a repeated id keeps its first position |
| `Registry.Selected` | lm_batch_runner.py:484 | the selection holds exactly the registered ids that are ticked, no more of them than are registered |
| `Registry.SelectedInOrder` | lm_batch_runner.py:484 | the selection keeps the order of the checkbox table: it is that list with the unticked ids left out |
| `Registry.SelectedDistinct` | lm_batch_runner.py:484 | a selection names each model once |
| `Backend.Resident` | lm_batch_runner.py:324-328 | a loaded entry keeps its id, and its instance id defaults to the id when the field is missing |
| `Backend.LoadedFromSpec` | lm_batch_runner.py:314-331 | reading a listing fails exactly when a loaded entry lacks an id; otherwise every resident is a loaded entry and every loaded entry gives a resident (their order is stated by `Backend.LoadedFromSnoc` and `Backend.LoadedFromAppend`) |
| `Backend.LoadedFromAppend` | lm_batch_runner.py:322-328 | reading a listing in two parts gives the residents of both, or fails if either part fails |
| `Backend.LoadedFromSnoc` | lm_batch_runner.py:323-328 | each further entry fails the read, adds a resident, or is skipped |
| `Backend.Ids` | lm_batch_runner.py:417 | the listed ids, one per resident, in order |
| `Residency.DoUnloadTries` | lm_batch_runner.py:333-348 | the payloads are posted in their fixed order, at most four requests and nothing else; every request but the last was refused; the result is true exactly when the last one was accepted, and false only after all four |
| `Residency.RequestIsRun` | lm_batch_runner.py:333-348 | one `_do_unload_request` is one run of unload requests for that resident: its payloads in their fixed order, every one refused but the last, and four of them unless the last was accepted |
| `Residency.UnloadEachSpec` | lm_batch_runner.py:355-357 | the inner loop is, resident after resident in the listing's order, one such run per resident, and nothing else happens |
| `Residency.RoundSpec` | lm_batch_runner.py:351-361 | a round is a listing, then one run of unload requests per resident it showed, in order, then the 3-second sleep and the listing whose answer it returns; it makes residency requests only |
| `Residency.RoundSettlesOnce` | lm_batch_runner.py:360 | a round sleeps 3 seconds exactly once |
| `Residency.ForceFromSpec` | lm_batch_runner.py:350-365 | from any round on, the result is true exactly when the final listing is empty |
| `Residency.ForceUnloadAllSpec` | lm_batch_runner.py:350-365 | `_force_unload_all` makes residency requests only, changes nothing but the trace, ends with a listing, and succeeds exactly when that listing is empty |
| `Residency.ForceUnloadNothingResident` | lm_batch_runner.py:352-354 | with nothing resident it succeeds after one listing and no unload request |
| `Residency.ForceUnloadTrustsFailedListing` | lm_batch_runner.py:329-354 | a failed listing reads as nothing resident, so the controller reports success |
| `Residency.ForceFromRounds` | lm_batch_runner.py:351-363 | the remaining rounds wait at most once each, and all of them on failure |
| `Residency.ForceUnloadAllRounds` | lm_batch_runner.py:351-363 | at most three rounds are waited out, and all three when it fails |
| `Residency.PollFromSpec` | lm_batch_runner.py:367-377 | polling makes residency requests only; a set stop flag stays set; success means the last listing shows the model and stop was not seen, and failure means no listing it made showed the model |
| `Residency.PollFromBounded` | lm_batch_runner.py:367-377 | at most one listing per remaining poll, and all of them when it gives up without a stop |
| `Residency.LoadClearedSpec` | lm_batch_runner.py:383-400 | after clearing, the load succeeds only with the model current, stop unset and the final listing showing it; when the load request was accepted, it fails only if no later listing showed the model |
| `Residency.LoadModelSpec` | lm_batch_runner.py:379-400 | `_load_model` makes residency requests only; it sets the current model only to the one loaded; success means the final listing shows it, with stop unset |
| `Residency.LoadModelFailsUnseen` | lm_batch_runner.py:383-400 | when the load request after the clearing was accepted, `_load_model` fails only if no listing after it showed the model |
| `Residency.ReadyAfterLoad` | lm_batch_runner.py:379-400 | after a successful load the model shows in the last listing made |
| `Residency.LoadClearedOrder` | lm_batch_runner.py:383-391 | after clearing comes the 2-second wait; a stop then ends the load with no request; otherwise the load request follows |
| `Residency.LoadModelOrder` | lm_batch_runner.py:379-391 | memory is always cleared first, then the wait, then the load request unless stopped |
| `Residency.TargetInstanceSpec` | lm_batch_runner.py:405-409 | the target is the instance of the first listed entry with the id, and there is none for an id not listed |
| `Residency.AttemptSpec` | lm_batch_runner.py:415-417 | an attempt makes residency requests only and returns the answer of the listing it ends with |
| `Residency.AttemptWaitsOnce` | lm_batch_runner.py:416 | an attempt waits 2 seconds exactly once |
| `Residency.UnloadFromSpec` | lm_batch_runner.py:414-423 | the attempts succeed exactly when the last listing lacks the id, and only then clear the current model |
| `Residency.UnloadModelSpec` | lm_batch_runner.py:402-423 | `_unload_model` makes residency requests only and ends with a listing; it succeeds exactly when there is no instance to target or that listing lacks the id; it clears the current model only on the second kind of success |
| `Residency.UnloadModelNotListed` | lm_batch_runner.py:404-412 | a model that is not listed is reported unloaded after that one listing, with no unload request |
| `Residency.UnloadFromAttempts` | lm_batch_runner.py:414-423 | the remaining attempts wait at most once each, and all of them on failure |
| `Residency.UnloadModelAttempts` | lm_batch_runner.py:414-423 | at most three attempts, and all three when it reports failure |
| `Batch.SaveFileSpec` | lm_batch_runner.py:535-562 | a save adds one write; exactly when it succeeds the file holds the text, and nothing else changes |
| `Batch.TidyUpSpec` | lm_batch_runner.py:563-565 | unloading, with the force-unload fallback, makes residency requests only, ends with a listing, and keeps files and stop flag |
| `Batch.TidyUpOutcome` | lm_batch_runner.py:563-565 | the last listing still shows the model only if the first listing gave no instance to target, or if `_unload_model` used all three attempts and `_force_unload_all` then used all three rounds and left memory non-empty |
| `Batch.DelayFromSpec` | lm_batch_runner.py:578-582 | the delay adds only one-second sleeps, at most the remaining count, and all of them unless stopped |
| `Batch.FinishSpec` | lm_batch_runner.py:535-582 | after generating, the turn is counted as generated with the save's outcome; the save comes first, then residency requests; a turn that ends the batch has seen stop |
| `Batch.FinishWaits` | lm_batch_runner.py:570-582 | a generated turn ends with the tidy-up listing followed by its delay sleeps, all of them unless stopped |
| `Batch.GenerateSpec` | lm_batch_runner.py:519-562 | a stop seen after the completion aborts with nothing written; otherwise the completion request is followed by the save of that response under the model's file name, then residency requests |
| `Batch.TurnSpec` | lm_batch_runner.py:508-523 | a turn aborts only with stop set and nothing written; a load failure is counted, does not end the batch and makes residency requests only |
| `Batch.TurnGenerated` | lm_batch_runner.py:508-562 | a generated turn asked for the completion only after a listing showed the model resident |
| `Batch.TurnSaves` | lm_batch_runner.py:508-567 | a counted turn writes once if generated and never otherwise, and stores at most its own model's file |
| `Batch.GeneratedSaves` | lm_batch_runner.py:535-567 | a generated turn holds exactly one save and stores at most the file it names |
| `Batch.TurnAsks` | lm_batch_runner.py:508-523 | a turn asks for one completion, for its own model, when it generated or was aborted after asking, and for none when loading failed |
| `Batch.TurnFactsHold` | lm_batch_runner.py:497-582 | every turn has the facts the loop relies on: trace grows, abort only when stopped, one save per generated model, and a stored file holds the response to the turn's own completion request |
| `Batch.GeneratedCount` | lm_batch_runner.py:567 | the number of generated models never exceeds the number counted |
| `Batch.RunFromSpec` | lm_batch_runner.py:497-582 | from any model on, the counted models never exceed the remaining selection and equal it unless stopped; there is one save per generated model; every file stored or changed is named for a remaining model and holds the response to a completion request for that model made during the loop; no file is removed |
| `Batch.RunFromAsks` | lm_batch_runner.py:497-523 | from any model on, the completion requests go to the models counted as generated, each once and in selection order, followed at most by one for the model whose generation was aborted, the one after the last counted |
| `Batch.RunBatchNothingSelected` | lm_batch_runner.py:488-491 | with nothing selected the batch makes no request and writes nothing |
| `Batch.RunBatchSpec` | lm_batch_runner.py:483-582 | `done` never exceeds `total` and equals it unless stopped; saves equal generated models; every file written is named for a selected model and holds the response to that model's own completion request in this batch, and no earlier file disappears |
| `Batch.RunBatchAsks` | lm_batch_runner.py:483-523 | the whole batch asks for completions in selection order: the generated models, each once, then at most the model whose generation was aborted |
| `Runner.BatchRunner.constructor` | lm_batch_runner.py:20-30 | a new runner has made no request, has the stop flag clear and no model current |
| `Runner.BatchRunner.StopSet` | lm_batch_runner.py:501 | reading `_stop_flag` sees a stop the user requested by then |
| `Runner.BatchRunner.GetLoadedModels` | lm_batch_runner.py:314-331 | the accumulation loop returns exactly the residents of the listing, or nothing on any failure |
| `Runner.BatchRunner.DoUnloadRequest` | lm_batch_runner.py:333-348 | the payload loop does exactly what `Residency.DoUnloadRequest` specifies |
| `Runner.BatchRunner.UnloadEach` | lm_batch_runner.py:355-357 | the inner loop sends one unload per resident, as `Residency.UnloadEach` specifies |
| `Runner.BatchRunner.Settle` | lm_batch_runner.py:355-361 | the rest of a round: unloads, the 3-second wait and the second listing |
| `Runner.BatchRunner.ForceRound` | lm_batch_runner.py:351-363 | one round either settles the whole call as a success or leaves the rest of it to the next round |
| `Runner.BatchRunner.ForceUnloadAll` | lm_batch_runner.py:350-365 | the round loop computes exactly `Residency.ForceUnloadAll` |
| `Runner.BatchRunner.PollLoading` | lm_batch_runner.py:367-377 | the polling loop computes exactly `Residency.PollLoading` |
| `Runner.BatchRunner.LoadModel` | lm_batch_runner.py:379-400 | `_load_model` in place computes exactly `Residency.LoadModel`, including setting the current model |
| `Runner.BatchRunner.FindTarget` | lm_batch_runner.py:404-409 | the search with `break` returns exactly the instance of the first entry with the id |
| `Runner.BatchRunner.UnloadModel` | lm_batch_runner.py:402-423 | `_unload_model` in place computes exactly `Residency.UnloadModel` |
| `Runner.BatchRunner.AttemptOnce` | lm_batch_runner.py:415-417 | one attempt: unload request, 2-second wait, listing |
| `Runner.BatchRunner.UnloadStep` | lm_batch_runner.py:414-421 | one attempt either ends the call with the current model cleared or leaves the rest to the next attempt |
| `Runner.BatchRunner.UnloadAttempts` | lm_batch_runner.py:414-423 | the attempt loop computes exactly the specified attempts |
| `Runner.BatchRunner.SaveFile` | lm_batch_runner.py:535-562 | the write stores the file exactly when it succeeds |
| `Runner.BatchRunner.TidyUp` | lm_batch_runner.py:563-565 | unload, then force-unload on failure |
| `Runner.BatchRunner.Delay` | lm_batch_runner.py:578-582 | the delay loop computes exactly `Batch.DelayFrom` |
| `Runner.BatchRunner.Finish` | lm_batch_runner.py:535-582 | save, tidy up, stop check and delay, as `Batch.Finish` specifies |
| `Runner.BatchRunner.Generate` | lm_batch_runner.py:519-523 | the completion request and the stop check after it, as `Batch.Generate` specifies |
| `Runner.BatchRunner.TakeTurn` | lm_batch_runner.py:508-523 | one model's turn computes exactly `Batch.Turn` |
| `Runner.BatchRunner.RunBatch` | lm_batch_runner.py:483-582 | `_run_batch` computes exactly `Batch.RunBatch`, whose properties `Batch.RunBatchSpec` proves |
| `Runner.BatchRunner.RunTurns` | lm_batch_runner.py:497-582 | the model loop computes exactly the specified loop |
| `Runner.BatchRunner.StopBatch` | lm_batch_runner.py:634-637 | Stop sets the flag and changes nothing else |
| `Runner.BatchRunner.StartBatch` | lm_batch_runner.py:643-694 | the form decides as `Validation.Decide`; on a start the flag is cleared and the batch runs with the checked job; otherwise nothing changes |
| `Runner.BatchRunner.Begin` | lm_batch_runner.py:676-694 | a started batch runs with the stop flag cleared |

## Left out

- The Tk/customtkinter interface is not modelled: widgets, labels, highlighting, the counter text, the progress bar, message boxes and `root.after` callbacks.
- HTTP transport is not modelled. Every request is an event of the trace, and its outcome comes from an oracle. `r.ok` and `raise_for_status` both become "accepted".
- Network errors in `_get_loaded_models` are modelled as a failed listing. A loaded entry without an `id` (a `KeyError`) also reads as a failed listing.
- Threads are not modelled. The daemon thread that `_stop_batch` starts to force-unload is absent, so `Runner.BatchRunner.StopBatch` only sets the flag. A stop pressed during a batch reaches the model as the `stopRequested` oracle, read at each place the code reads `_stop_flag`.
- The pause event only delays the batch, so it is not modelled.
- `time.sleep` is kept only as `Sleep(n)` events in the trace.
- The 120-second wall-clock limit of `_poll_loading` is modelled as 60 polls, each followed by a 2-second sleep. A slow listing request that shortens the real number of polls is not modelled.
- The session timestamp is an opaque string.
- Floating point is not modelled: GB/MB size formatting, TPS and elapsed time, the temperature value (carried as a `real` and never computed on) and the progress fraction.
- The response parsing and error texts of `_generate` (lines 449-478) are not modelled. The completion's content, time and TPS strings come from an oracle, and the request it is for is recorded in the trace.
- The token field is a slider over a `DoubleVar` from -1 to 16384 (lines 124-125), and `int()` at line 438 truncates it toward zero. The model takes that truncated integer as `Batch.Config.tokens`.
- The delay field is taken as an integer; `ValueError` turning it into 0 is not modelled.
- Batch.Config: the token limit, the temperature and its use-default box, and the skip-thinking box are fixed for the whole batch, while the source reads them again for every model (lines 438, 446-447 and 526), so a change made in the window during a batch is not modelled. The same holds for the delay field, read after every model at line 574.
- File I/O and `os.path.join` are not modelled. Files are a map keyed by the file name in the output folder. `os.path.isdir` and the float parser are parameters of `Validation.Decide`.
- Batch.SaveFile: a write either succeeds and stores the whole text or fails and stores nothing. In the source, `open(filepath, "w")` at lines 536-537 truncates the file first, so a write that fails midway can leave an existing file empty or partly written. The statement of `Batch.RunBatchSpec` that no earlier file disappears rests on this simplification.
- Registry.Sizes: the size table is all or nothing (`SizesFailed` or every entry). In the source, an exception midway through lines 230-248, such as a quantization dict whose `name` is not a string reaching `.lower()` at line 246 after its key was written at line 237, keeps the entries already written. The model's `QuantDict` name is always a string.
- `Strings.Lower` covers ASCII letters only, not full Unicode lower-casing.
- Whitespace handling covers the characters Python's `str.strip()` removes, with no Unicode normalisation.
- `_toggle_pause`, `_open_output_folder`, `_browse_folder` and the theme and slider toggles are not modelled; they are interface actions.
