# Label compliance checker: rule engine, field comparison and job bookkeeping

This project models, in Dafny, the core of a backend that checks alcohol
beverage labels against federal (TTB) labelling rules. A vision model
extracts one record of label data per image. Three parts of the backend are
modelled:

- **The field comparison engine** (`Comparison`, in `comparison.dfy`). It
  compares the label data against the application row (form 5100.31) for the
  label. For each field it reports `match`, `partial`, `mismatch`,
  `not_found` or `needs_review`:
  - brand name, class/type and producer name by loose text containment;
  - alcohol content and net contents numerically within a tolerance,
    falling back to normalised text;
  - producer address by word overlap;
  - the government health warning against the statutory text.
- **The compliance rule engine** (`Compliance`, in `compliance.dfy`). It turns
  one label record into a list of issues, each `critical`, `needs_review` or
  `info`:
  - it runs the presence checks;
  - it downgrades critical findings on a low-confidence extraction;
  - it adds the extraction-quality note;
  - it maps the comparison statuses to issues.

  The label passes when no issue is critical.
- **The job bookkeeping of the HTTP server** (`Server`, in `server.dfy`):
  - the job table and its limit of three active jobs;
  - the application-row index built when a job is created, with its
    duplicate report;
  - the lookup from an image filename to its row;
  - upload admission and the per-file accounting of ids, counts and bytes;
  - the completion flag;
  - the condition under which the result stream ends, with its report of
    unmatched label ids.

Shared pieces:

- `wrappers.dfy` holds `Option` and `Result`.
- `text.dfy` holds the Python string operations the code relies on, on ASCII.
  These are `strip`, `lower`, `upper`, whitespace collapsing, character
  filters, substring search and `findall`/`split` into word sets.
- `labels.dfy` holds the label record, the application row and the statutory
  warning text.

The model is in the source's own form:

- The comparators and rules are functions, and lemmas state their decision
  tables.
- The loops of the source are methods with invariants. Each is proved equal
  to the function that specifies it. These are the presence checks, the
  `any(...)` scans, the comparison-issue loop, the index-building loop, the
  filename lookup and the per-file upload loop.
- The job and the job table are classes whose handler methods update their
  fields.

The two regular-expression parsers of the comparison engine are function
parameters (`Comparison.Parsers`):

- the ABV pattern search with its float conversion;
- the net-contents pattern search, returning the number and the unit text.

The unit-text normalisation and the lookup in `_ML_CONVERSIONS` after the
search are modelled. The comparison uses that table as the source has it.
A table completed with "fl.oz" and "floz" appears only in the corrected half
of the first finding below.

## Model

| member | source | states |
|---|---|---|
| Comparison.NormText | backend/services/comparison.py:57-65 | normalised text has no uppercase letter, keeps only word characters, whitespace, `%` and `.`, has single spaces and none at either end, and is no longer than its input |
| Comparison.NormTextIdempotent | backend/services/comparison.py:57-65 | normalising twice gives the same text as normalising once |
| Comparison.StripAllPunct | backend/services/comparison.py:68-70 | the loose form holds only `[a-z0-9]` and is no longer than its input |
| Comparison.StripAllPunctAppend | backend/services/comparison.py:68-70 | the loose form of a concatenation is the concatenation of the loose forms |
| Comparison.ClassifyNames | backend/services/comparison.py:115-131 | not_found exactly when the label value is missing or empty; match exactly when the loose forms are equal; partial exactly when they differ and one contains the other; mismatch exactly when neither contains the other; never needs_review |
| Comparison.ClassifyNamesEmbedded | backend/services/comparison.py:182-191 | a label value that contains the application's name with text around it (the "Bourbon Whiskey" case) is a match or a partial match, never a mismatch |
| Comparison.ClassifyNamesSymmetric | backend/services/comparison.py:197-213 | swapping the application value and the label value never changes the status |
| Comparison.ClassifyMeasure | backend/services/comparison.py:134-153 | not_found exactly when the label value is missing; when both values parse, match exactly when they are within the tolerance, else mismatch; otherwise match exactly when the normalised texts agree, else needs_review |
| Comparison.ClassifyMeasureSymmetric | backend/services/comparison.py:156-174 | the measure comparison is symmetric in its two values |
| Comparison.ClassifyMeasureReflexive | backend/services/comparison.py:142-150 | a label showing exactly the application's value matches it |
| Comparison.LookupFactor | backend/services/comparison.py:102-107 | a factor is found exactly when the unit, or the unit without its trailing `s` characters, is a key of the table; a direct key gives its own factor, and otherwise the retry gives the factor of the unit without its trailing `s` characters |
| Comparison.NormalizeUnit | backend/services/comparison.py:99-101 | the normalised unit is lowercase, single-spaced, starts with no whitespace and is no longer than the captured text |
| Comparison.ParseNetContentsWith | backend/services/comparison.py:93-108 | nothing without a pattern match; with one, a quantity exactly when the normalised unit or its form without trailing `s` is a key of the table, and for a direct key the captured number times that key's factor |
| Comparison.NormalizeUnitFixes | backend/services/comparison.py:99-101 | a unit already lowercase, stripped, single-spaced and without a trailing dot is left unchanged by the unit normalisation |
| Comparison.FluidOunceMissingAsWritten | backend/services/comparison.py:18-50 | the conversion table as written has no factor for "fl.oz", even after dropping trailing `s` |
| Comparison.FluidOunceWithoutSpaceUnparsed | backend/services/comparison.py:85-107 | "fl.oz" is a unit the pattern accepts, yet with the table as written any amount in "fl.oz" parses to nothing |
| Comparison.FluidOunceLabelNeedsReview | backend/services/comparison.py:156-174 | with the table as written, a label amount in "fl.oz" whose text normalises differently from the application's is needs_review, never compared numerically |
| Comparison.EveryRecognisedUnitConverts | backend/services/comparison.py:93-108 | the corrected parse: with the completed table, every unit the pattern accepts converts to millilitres by its factor |
| Comparison.ClassifyWarningText | backend/services/comparison.py:230-251 | match exactly when the uppercased, whitespace-collapsed texts are equal; otherwise partial exactly when at least 80% of the statutory words appear, else mismatch |
| Comparison.CompareWarning | backend/services/comparison.py:216-251 | the warning entry always expects the statutory text; not_found exactly when the warning is not detected; needs_review exactly when it is detected without text; the text shown falls back to "Not detected on label"; with text, the status is the text classification |
| Comparison.StatutoryWarningMatches | backend/services/comparison.py:230-234 | a label reproducing the statutory warning of 27 CFR 16.21 passes the warning comparison |
| Comparison.WarningWithAllWordsNotMismatch | backend/services/comparison.py:236-246 | a warning text containing every statutory word is never a mismatch |
| Comparison.WarningWithNoWordsMismatch | backend/services/comparison.py:236-251 | a differing warning text that shares no word with the statutory text is a mismatch |
| Comparison.AddressOutcome | backend/services/comparison.py:266-278 | mismatch exactly when no word is shared; match exactly when at least 60% of the application's words are shared; never anything but match, partial or mismatch |
| Comparison.AddressOutcomeMonotone | backend/services/comparison.py:269-278 | a larger word overlap never gives a lower address outcome |
| Comparison.ClassifyAddress | backend/services/comparison.py:254-278 | not_found exactly when the label value is missing; otherwise the outcome of the overlap of the normalised word sets, against at least one word |
| Comparison.ClassifyAddressMonotone | backend/services/comparison.py:259-278 | reading more address words off the label never lowers the outcome |
| Comparison.ClassifyAddressReflexive | backend/services/comparison.py:263-271 | an address with at least one word matches itself |
| Comparison.CompareField | backend/services/comparison.py:326-343 | the entry for an application field names that field, expects the row's value, shows the label's value, is not_found exactly when the label value is missing, has a status that comparator can report (never partial for a measure, never needs_review for a name or the address), and carries that comparator's message, which is empty exactly on a match of a field other than the address |
| Comparison.Message | backend/services/comparison.py:115-278 | for a status the field's comparator can report, the message is empty exactly on a match of a field other than the address; no message for a status it never reports |
| Comparison.Requested | backend/services/comparison.py:341-343 | the fields compared are among those listed, and each has an expected value in the row |
| Comparison.RequestedMembers | backend/services/comparison.py:341-343 | a field is compared exactly when it is listed and the row gives a value for it (possibly an empty one) |
| Comparison.RunComparisons | backend/services/comparison.py:341-343 | the loop yields one entry per compared field, in order |
| Comparison.RunComparisonsEntries | backend/services/comparison.py:341-343 | each entry of the loop is its field's comparator applied to the row's value for it |
| Comparison.CompareFields | backend/services/comparison.py:305-351 | the result names the row's label id, holds one entry per application field with a value in the fixed order, and ends with the warning entry |
| Comparison.CompareFieldsEntries | backend/services/comparison.py:326-343 | every entry before the warning entry is the comparator's result for its field |
| Comparison.CompareFieldsOrdered | backend/services/comparison.py:326-346 | the entries come in strictly increasing field order, so no field is reported twice |
| Comparison.CompareFieldsCoverage | backend/services/comparison.py:341-343 | an application field has an entry exactly when the row gives a value for it |
| Compliance.Downgrade | backend/services/compliance.py:78-82 | the severity is critical exactly when critical was intended on a trusted extraction; a critical finding becomes needs_review on a low-confidence one; other severities are kept |
| Compliance.LowConfidenceMonotone | backend/services/compliance.py:42-52 | filling in main fields, with the same raw text, never makes an extraction low-confidence |
| Compliance.IsLowConfidence | backend/services/compliance.py:42-52 | with all ten main fields null the extraction is low-confidence, whatever its raw text |
| Compliance.Normalize | backend/services/compliance.py:29-39 | the rule engine's warning normalisation is the comparison engine's warning form with quotes and dashes straightened |
| Compliance.SameWarningFormSameNormal | backend/services/compliance.py:100-104 | texts the comparison treats as the same warning are the same for the rule engine too |
| Compliance.LaterChecks | backend/services/compliance.py:144-216 | the producer, header, country, class/type and sulfite checks never raise a critical issue, and raise issues only about their own subjects |
| Compliance.PresencePassed | backend/services/compliance.py:88-216 | the presence issues hold no critical issue exactly when the extraction is low-confidence or the warning, the ABV and the net contents were all detected |
| Compliance.RequiredFieldIssues | backend/services/compliance.py:120-142 | a missing ABV (or net contents) raises exactly one issue about it, critical unless low-confidence and with the low-confidence suffix when it applies; a detected one raises none |
| Compliance.WarningTextIssues | backend/services/compliance.py:100-118 | no warning-text issue when the warning is absent or its text normalises to the statutory text; one needs_review issue when the text differs or could not be extracted |
| Compliance.WarningMatchMeansNoTextIssue | backend/services/compliance.py:100-104 | when the comparison finds the warning text matching, the rule engine raises no warning-text issue |
| Compliance.AnyIssue | backend/services/compliance.py:219-221 | the short-circuit scan finds an issue satisfying the test exactly when one exists |
| Compliance.ScanForLowConfidence | backend/services/compliance.py:219-221 | the scan reports true exactly when some message contains "low confidence" |
| Compliance.QualityNotePlacement | backend/services/compliance.py:218-227 | the quality note opens the issue list exactly when the extraction is low-confidence and no presence message already says "low confidence"; the list never holds it twice |
| Compliance.NoQualityNoteAfterCriticalMiss | backend/services/compliance.py:218-227 | on a low-confidence extraction missing the warning, the ABV or the net contents, a presence message already says "low confidence", so no quality note is added |
| Compliance.CriticalComparisonFields | backend/services/compliance.py:26 | exactly brand name, alcohol content and net contents are critical comparison fields |
| Compliance.ComparisonIssue | backend/services/compliance.py:237-271 | an entry raises no issue exactly on a match, otherwise one issue about its field, never informational, relaying its message, and critical exactly for a mismatch or not_found on a critical field of a trusted extraction |
| Compliance.ComparisonIssues | backend/services/compliance.py:237-271 | the comparison raises at most one issue per entry, each about a compared field and typed as a comparison issue |
| Compliance.ComparisonIssuesNone | backend/services/compliance.py:237-271 | the comparison raises no issue exactly when every entry is a match |
| Compliance.AppendComparisonIssues | backend/services/compliance.py:237-271 | the loop appends exactly the comparison issues of the entries, in order, after the existing issues |
| Compliance.EvaluateComparedIssues | backend/services/compliance.py:232-271 | in the whole check, the issues about a field compared once are exactly the issue its status maps to |
| Compliance.CheckedFieldIssues | backend/services/compliance.py:234-271 | with an application row, each compared field yields exactly the issue its comparison status maps to |
| Compliance.EvaluateIssuesFor | backend/services/compliance.py:88-227 | issues about a presence subject come from the presence checks alone |
| Compliance.ComparisonPassed | backend/services/compliance.py:237-256 | the comparison issues hold no critical issue exactly when the extraction is low-confidence or no entry is a critical miss |
| Compliance.PassedIff | backend/services/compliance.py:273 | a label passes exactly when the extraction is low-confidence, or the warning, the ABV and the net contents were detected and no brand name, alcohol content or net contents entry is a mismatch or not_found |
| Compliance.ScanPassed | backend/services/compliance.py:273 | the scan reports a pass exactly when no issue is critical |
| Compliance.ComparisonFor | backend/services/compliance.py:232-235 | the comparison runs exactly when an application row is given |
| Compliance.CollectPresenceIssues | backend/services/compliance.py:88-216 | the presence checks append their issues in the engine's order, giving the presence issue list |
| Compliance.CheckCompliance | backend/services/compliance.py:55-278 | the step-by-step check returns the result of the decision table (verdict, issues, comparison), and carries a comparison exactly when a row was given |
| Server.IndexCovers | backend/main.py:254-262 | a label id is indexed exactly when some row carries it after stripping |
| Server.IndexKeepsFirst | backend/main.py:257-262 | the row kept for a label id is the first row carrying it; later rows never replace it |
| Server.IndexKeysMatchIndex | backend/main.py:254-262 | the keys in insertion order hold each indexed label id once, and nothing else |
| Server.IndexAccountsForEveryRow | backend/main.py:255-262 | the index size plus the number of reported duplicates is the number of rows, and every duplicate is an indexed id |
| Server.IndexFilesByKey | backend/main.py:258-262 | every row is filed under its own stripped label id |
| Server.BuildIndex | backend/main.py:254-262 | the loop builds the index, its key order and the duplicate list, with distinct keys and every row accounted for |
| Server.Stem | backend/main.py:80 | the stem is a prefix of the name; a name without dots is its own stem; a shorter stem drops exactly a final extension that starts at a dot and holds no further dot or slash |
| Server.StemDropsExtension | backend/main.py:80 | `name.ext` has stem `name` when the extension has no dot or slash and the name is not only dots |
| Server.MatchApplicationRow | backend/main.py:76-89 | no row for an empty index; the row filed under the stem when there is one; otherwise a row exactly when some key equals the stem ignoring case, and then that of the first such key in insertion order; any row found is in the index |
| Server.Unmatched | backend/main.py:386-389 | the unmatched report lists only indexed ids that were never matched, and no more entries than the index has keys |
| Server.UnmatchedExactly | backend/main.py:386-389 | a label id is reported unmatched exactly when it is indexed and never matched, each at most once |
| Server.DoneReport | backend/main.py:384-391 | the `done` event has no unmatched list exactly when every indexed id was matched; otherwise the list holds exactly the unmatched ids, each once |
| Server.MatchClearsKey | backend/main.py:126-130 | recording a found row under its index key takes exactly that key off the unmatched report |
| Server.RawLabelIdStaysUnmatched | backend/main.py:129-130 | a row whose `label_id` is " L1 " is indexed under "L1" and found for "L1.png", yet recording its raw id leaves "L1" on the unmatched report |
| Server.Job.RecordMatchAsWritten | backend/main.py:126-130 | the worker's bookkeeping as written: the row found for the filename, with its raw label id added to the matched set when non-empty; nothing else changes |
| Server.Job.RecordMatch | backend/main.py:126-130 | the corrected bookkeeping: a found row's index key is added to the matched set, so it is no longer reported unmatched; nothing else changes |
| Server.Range | backend/main.py:291-292 | the default client indices are the consecutive integers from the number of files already received |
| Server.AdmitUpload | backend/main.py:279-298 | a request is admitted exactly when the job is neither cancelled nor complete, the client indices parse and give one per file, and the files fit in the declared total; the refusals come in the source's order; admitted indices are the sent ones or the default ones |
| Server.Admit | backend/main.py:303-350 | a file is acknowledged exactly when its type is allowed, it is within the per-file limit and the job stays within its byte limit; an acknowledged file gets the next id and its client index and is counted received; a file of an allowed type takes an id; its size is counted unless it is over the per-file limit or of a disallowed type |
| Server.Run | backend/main.py:302-350 | the per-file loop acknowledges at most the files sent, and fewer when a file is rejected |
| Server.RunStopsOnlyOnRejection | backend/main.py:302-350 | the loop ends without a rejection exactly when every file was acknowledged |
| Server.RunAcknowledges | backend/main.py:310-313 | the acknowledged files are a prefix of the request, with consecutive ids from the job's next id, their client indices and their stored names |
| Server.RunCounts | backend/main.py:310-347 | the received count grows by the acknowledged files; the id counter grows by those plus the file, if any, rejected after taking an id |
| Server.RunBytes | backend/main.py:338-344 | the byte count grows by the sizes of the acknowledged files, plus that of the file that put the job over its limit |
| Server.RunWithinLimit | backend/main.py:338-344 | every acknowledged file kept the job within its 500 MB limit |
| Server.OverLimitAcceptsNothing | backend/main.py:338-344 | once a job is over its byte limit, no further file is acknowledged |
| Server.WorkItems | backend/main.py:346 | one work item per acknowledged file, in order, carrying the job id, file id, client index and stored name |
| Server.UploadOutcome | backend/main.py:279-353 | a refused request leaves the job as it was and answers with its refusal; the received count grows by the acknowledged files; the answer lists the files exactly when the request was admitted and every file was acknowledged; uploads are complete afterwards exactly when they were before or the whole request went through and the declared count is reached |
| Server.UploadKeepsCount | backend/main.py:294-353 | a request never takes a job past its declared file count; each acknowledged file is counted received; a job becomes complete only when the whole request went through and the count is reached; a successful response lists every file; a refused request changes nothing |
| Server.Job.constructor | backend/main.py:42-57 | a new job has its declared size and index, no uploads, no flags set and nothing matched |
| Server.Server.constructor | backend/main.py:63-64 | the job table and the work queue start empty |
| Server.Server.ActiveJobCount | backend/main.py:69-73 | the count of jobs neither cancelled nor complete with every received file processed is at most the number of jobs, and zero exactly when no job is active |
| Server.Server.Register | backend/main.py:264-266 | entering an active job keeps at most three jobs active |
| Server.Server.CreateJob | backend/main.py:245-267 | a declared size outside 1..300 is refused with 400, and three active jobs with 429, before anything changes; otherwise a fresh active job with the row index is registered and the duplicates are reported |
| Server.Server.AcceptFile | backend/main.py:302-350 | one pass of the per-file loop changes the job's counters and the work queue as the per-file rule says, and nothing else |
| Server.Server.AcceptFiles | backend/main.py:302-350 | the loop leaves the counters, acknowledgements and rejection of the per-file rule over the request, and queues one item per acknowledged file |
| Server.Server.UploadTo | backend/main.py:279-355 | on one job, the upload leaves the job's counters, completion flag, the response and the work queue as the request's outcome says; the job stays valid and never becomes active again |
| Server.Server.UploadFiles | backend/main.py:270-355 | an unknown job is refused with 404; otherwise the request's outcome as above; at most three jobs stay active |
| Server.Server.CompleteJob | backend/main.py:358-364 | marks the job's uploads complete whatever was received; an unknown job is refused with 404; completing twice changes nothing; the number of active jobs never grows |
| Server.Server.StreamStep | backend/main.py:376-393 | a disconnected client cancels the job; otherwise the stream ends with the done event, carrying the unmatched report, exactly when uploads are complete, every received file is processed and no result is pending; the job is not changed |

## Left out

- The vision extraction (`backend/services/vision.py`) and the image preprocessing (`backend/services/preprocess.py`) are not part of this model. A label record is an input.
- The ABV pattern search and its float conversion (comparison.py:77-82) are a function parameter. So is the net-contents pattern search (comparison.py:85-95). Regular-expression matching is not modelled.
- Floating point: numbers are exact reals and the `round(..., 2)` of the net-contents parse is not modelled. The two overlap ratios are compared by exact cross-multiplication (`5 * overlap >= 4 * total`, `5 * overlap >= 3 * total`). For word counts of realistic size this agrees with the float division against 0.80 and 0.6.
- Comparison.Message: the two numeric mismatch messages ("ABV mismatch: expected …", "Net contents mismatch: expected …") are rendered without their parsed numbers.
- Text is ASCII only: `str.lower`/`str.upper`, `\s`, `\w` and `[a-z0-9]` treat every non-ASCII character as neither a letter nor whitespace. The curly quotes and dashes are straightened as in the source.
- The statutory warning text is passed to the comparison and the checks as a parameter. `Labels.CanonicalWarning` holds the text the backend uses.
- The `field_result.get("message", default)` fallbacks of compliance.py:246-268 never apply, because every comparison entry carries a message. Only the carried message is modelled.
- Compliance.NoQualityNoteAfterCriticalMiss: only one direction is proved, that a critical miss already mentions low confidence. The claim that no other fixed message contains "low confidence" is not stated, because it needs substring negation over every literal message. Compliance.QualityNotePlacement states the placement of the note in terms of the scan itself.
- The worker (main.py:92-177) is modelled only for its match bookkeeping (`Server.Job.RecordMatch`). Reading the file, extraction, the compliance call, the result payload, the result queue, the error path and the increments of `files_processed` are not modelled. `filesProcessed` is read, never advanced.
- The watchdog (main.py:180-201), the expiry cleanup (main.py:204-221) and the lifespan hooks (main.py:224-233) depend on clocks and background tasks and are not modelled. So are `last_upload_at`, `created_at` and `temp_dir`.
- Concurrency: each request handler runs atomically here. In the source, `upload_files` awaits between its admission checks and its per-file loop, so two concurrent uploads to one job could interleave. The job invariant `files_received <= total_files` relies on requests not interleaving.
- File contents are reduced to their size. Chunked reading, the temporary files and their removal are not modelled, nor is the 500 answer when saving a file fails (main.py:333-336).
- `client_indices` is absent or empty, not JSON, or a decoded array. A JSON value that is not an array, or an array of non-integers, is not modelled (in the source it fails later with a 500 or a bad index).
- Job ids are random in the source (`uuid4`) and are a parameter here.
- The result stream is reduced to one loop turn, `Server.Server.StreamStep`. The disconnection test and the emptiness of the result queue are inputs. The `meta` event, the heartbeat, forwarding queued results and the event framing are not modelled.
- HTTP routing, CORS and response models are not modelled. Refusals carry their HTTP status in `Server.Rejection.Status`.

## Findings

| source | as written | input that shows it | evidently intended | confidence | as-written member | corrected member |
|---|---|---|---|---|---|---|
| backend/services/comparison.py:85-107 | The unit pattern accepts "fl.oz" and "floz". The conversion table has neither key, and retrying without trailing "s" does not help. The parse returns nothing, so the comparison falls back to text and asks for manual review. | net contents "12 fl.oz" on the label and "12 fl oz" in the application | "fl.oz" and "floz" convert at 29.5735 mL like "fl oz" | high; not executed | Comparison.FluidOunceLabelNeedsReview | Comparison.EveryRecognisedUnitConverts |
| backend/main.py:129-130 | The worker records the matched row's raw `label_id`. The index and the unmatched report use the stripped id (main.py:258, 386-389). | an application row with `label_id` " L1 " and an image named "L1.png" | a row found for an image leaves the unmatched report | high; not executed | Server.RawLabelIdStaysUnmatched | Server.Job.RecordMatch |
