# Text file summarizer: bullet formatting and request handling

The repository has two Streamlit scripts: `app.py` (full model, `facebook/bart-large-cnn`) and
`app_light.py` (distilled model, `sshleifer/distilbart-cnn-12-6`). Each script takes an uploaded
`.txt` file, checks its declared MIME type, decodes it as UTF-8, shows a 500-character preview,
and calls a Hugging Face summarization pipeline with fixed length bounds. It then turns the
first candidate's `summary_text` into bullet points. The two scripts share this logic and
differ only in their constants and in how they write the bullets.

This Dafny project models that per-request logic:

- `Text`: the Python string operations the scripts use, on the literal separator `". "`.
  - `Find` is `s.find(". ")`, the leftmost occurrence.
  - `Split` is `s.split(". ")`: it cuts at the leftmost occurrence, then splits the rest.
    Since `". "` cannot overlap itself, this is Python's non-overlapping scan.
  - `Join` is `". ".join(...)`, with `Join([]) == ""` as in Python.
  - `Strip` is `s.strip()`, built from `TrimStart` (`lstrip`) and `TrimEnd` (`rstrip`).
  - `IsSpace` holds exactly for the code points Python 3's `str.isspace` accepts.
- `Summary`: what both scripts do the same way.
  - `Sentences` is the comprehension `[s.strip() for s in summary_text.split('. ') if s.strip()]`.
    It is written as `NonEmpty(StripAll(...))`.
  - `Punctuate` is the `endswith('.')` fix-up, and `PunctuateAll` applies it to each sentence.
  - `Bullets` is the list of punctuated sentences of a summary.
  - `Preview` is the 500-character preview.
  - The module also holds the request types: `Upload`, `Config`, `Candidate`, and the
    `Decoder` and `Summarizer` function types.
- `AppLight`: the accumulator loop of `app_light.py`.
  - It is the method `FormatBulletPoints` over the sentence list. It is proved to return
    `Blob(PunctuateAll(sentences))`, which for a summary's sentences is `Blob(Bullets(summary))`.
  - `Blob` is the in-order concatenation of `"• " + s + "\n\n"`.
  - `Run` is the whole per-run decision: `Idle`, `Rejected`, `Ready`, `Failed` or `Done`.
- `App`: the line-writing loop of `app.py`.
  - It is the method `WriteBulletLines` over the sentence list. Line `k` is the prefix
    followed by punctuated sentence `k`, which is `Lines(PunctuateAll(sentences))`.
  - The prefix is kept exactly as the script spells it: `"â€¢ "`, which is U+2022 encoded
    as UTF-8 and then read back as Windows-1252.
  - `Run` is this script's per-run decision.

Decoding and summarization are passed to `Run` as function parameters. A `Result` stands in
for an exception, and its failure value is `str(e)`. Statements that a step is "not invoked"
are proved as independence lemmas: the outcome is the same whatever those functions return.
An empty candidate list is modelled as the `IndexError` that `summary[0]` raises, so it ends
in `Failed` with the message `list index out of range`.

An empty or whitespace-only summary gives no bullet at all: the comprehension's filter drops
its single blank fragment (`Summary.BlankSummaryHasNoBullets`).

## Model

| member | source | states |
|---|---|---|
| Text.IsSpace | app_light.py:47 | Python 3's `str.isspace`, the test `strip()` uses, over its 29 code points: space, tab, newline and carriage return are whitespace, `.` is not, and none lies above U+3000 |
| Text.Find | app_light.py:47 | the index `split` cuts at is an occurrence of `". "` with none before it; no index means the text has no `". "` at all |
| Text.Split | app_light.py:47 | `summary_text.split('. ')` yields at least one fragment, and the first fragment is a prefix of the text |
| Text.Join | app_light.py:47 | `". ".join(parts)`: `""` for no parts; otherwise it starts with the first part, followed by `". "` when there is a second |
| Text.JoinSplit | app_light.py:47 | splitting loses nothing: joining the fragments with `". "` gives back the summary |
| Text.CutDecomposes | app_light.py:47 | at an occurrence of `". "`, the text is what precedes it, the separator and what follows it |
| Text.PrefixAvoidsSeparator | app_light.py:47 | the text before the leftmost occurrence of `". "` does not contain it |
| Text.SplitAtFirst | app.py:52 | Python's cut rule: at the leftmost occurrence of the separator, the first fragment is what precedes it and the rest is the split of what follows it |
| Text.SplitPartsAvoidSep | app_light.py:47 | no fragment of the split contains the separator |
| Text.SplitSingle | app_light.py:47 | a text splits into the single fragment itself exactly when it does not contain the separator |
| Text.SplitBlank | app_light.py:47 | a blank text contains no `". "`, so it splits into the single fragment itself |
| Text.SplitJoinRoundTrip | app_light.py:47 | splitting the `". "`-join of some fragments gives them back if and only if none of them contains `". "` |
| Text.JoinedFirstCut | app_light.py:47 | after a first fragment free of `". "`, the split of a join cuts right after that fragment |
| Text.TrimStart | app_light.py:47 | the leading part of `strip`: the result is a suffix of the input that is empty or starts with non-whitespace |
| Text.TrimStartDropsSpace | app_light.py:47 | everything the leading strip removes is whitespace |
| Text.TrimStartBlank | app_light.py:47 | the leading strip empties a blank string |
| Text.TrimEnd | app_light.py:47 | the trailing part of `strip`: the result is a prefix of the input that is empty or ends with non-whitespace |
| Text.TrimEndDropsSpace | app_light.py:47 | everything the trailing strip removes is whitespace |
| Text.Strip | app_light.py:47 | `s.strip()` is `rstrip(lstrip(s))`: never longer than `s`, and empty or without whitespace at either end |
| Text.StripSpec | app_light.py:47 | `s.strip()` is empty exactly when `s` is blank (the comprehension's filter test); otherwise it starts and ends with non-whitespace |
| Text.StripEmptyIsBlank | app_light.py:47 | when `s.strip()` is empty, all of `s` was whitespace |
| Text.StripIsSlice | app.py:52 | `s.strip()` is the slice `s[i:j]` of `s`, and every character before `i` or from `j` on is whitespace |
| Text.StripTrimmed | app_light.py:47 | stripping a string with no whitespace at its ends leaves it unchanged |
| Text.SliceAvoidsSeparator | app_light.py:47 | a slice of a string free of `". "` is free of it too |
| Text.StripAvoidsSeparator | app_light.py:47 | stripping a fragment free of `". "` leaves it free of `". "` |
| Summary.Preview | app_light.py:33 | the preview is the text when it has at most 500 characters, otherwise its first 500 plus `...`, so it never exceeds 503 characters |
| Summary.EndsWithPeriod | app_light.py:51 | `sentence.endswith('.')`: only a non-empty string containing `.` can end in it, so `""` does not |
| Summary.Punctuate | app_light.py:50-52 | the sentence ends in `.` afterwards; `.` is appended only when missing, so a sentence already ending in `.` is unchanged |
| Summary.NonEmpty | app_light.py:47 | the `if s.strip()` filter over the stripped fragments: never more strings than its input, and none of them empty |
| Summary.StripAll | app_light.py:47 | `s.strip()` for each fragment: one result per fragment, none longer than its fragment |
| Summary.NonBlankStripped | app.py:52 | the comprehension `[s.strip() for s in parts if s.strip()]` over any fragment list: never more sentences than fragments, and none empty |
| Summary.Sentences | app_light.py:47 | `Sentences(t)` is `NonEmpty(StripAll(Split(t)))`, the comprehension's list: at most one sentence per fragment, none empty |
| Summary.PunctuateAll | app_light.py:50-52 | the period fix-up for each sentence, in order: one result per sentence, each ending in `.` |
| Summary.Bullets | app_light.py:47-52 | `Bullets(t)` is `PunctuateAll(Sentences(t))`, the sentences the loop puts after a bullet mark: at most one per fragment, each ending in `.` |
| Summary.KeptIndices | app_light.py:47 | the `if s.strip()` filter keeps exactly the non-empty stripped fragments, in their original order |
| Summary.KeptAtExtend | app_light.py:47 | the filter runs left to right: one more fragment extends the kept positions by its own position exactly when it is non-empty |
| Summary.NonEmptyKeepsAll | app_light.py:47 | the filter keeps a list with no empty string as it is |
| Summary.StripAllTrimmed | app_light.py:47 | stripping fragments with no whitespace at their ends changes none of them |
| Summary.NonEmptyKeeps | app.py:52 | the filter keeps only non-empty strings taken from its input |
| Summary.NonEmptyTrimmed | app_light.py:47 | from strings that are empty or have no whitespace at either end, the filter keeps non-empty ones with no whitespace at either end |
| Summary.NonBlankStrippedTrimmed | app.py:52 | every kept sentence is non-empty and has no whitespace at either end |
| Summary.SentencesFollowFragments | app.py:52 | the sentences are, in order, the stripped non-blank fragments of `summary_text.split(". ")`: one per non-blank fragment, none for blank ones |
| Summary.PunctuateAvoidsSeparator | app_light.py:51-52 | appending the missing period never creates `". "` in a sentence free of it |
| Summary.KeptWellFormed | app_light.py:47 | from fragments free of `". "`, every kept sentence is non-empty, has no whitespace at either end and is free of `". "` |
| Summary.PunctuateAllWellFormed | app_light.py:50-52 | punctuating such sentences gives sentences that end in `.`, have no whitespace at either end and are free of `". "` |
| Summary.BulletsWellFormed | app_light.py:47-52 | every emitted sentence ends in `.`, is not blank, has no whitespace at either end, and does not contain `". "` |
| Summary.BlankSummaryHasNoBullets | app.py:52-58 | an empty or whitespace-only summary produces no bullets |
| Summary.UnseparatedSummaryIsOneBullet | app_light.py:47-53 | a summary without `". "` produces exactly one bullet, its stripped text punctuated, or none if it is blank |
| Summary.FormatJoinedSentences | app.py:52-57 | sentences joined with `". "` come back one bullet each, punctuated, when none of them is blank, padded with whitespace, or contains `". "` |
| Summary.ReformatBullet | app_light.py:47-52 | formatting one emitted sentence again gives back exactly that sentence |
| AppLight.ParamsConsistent | app_light.py:36-41 | the light request uses min 30 <= max 130 tokens and no sampling |
| AppLight.Item | app_light.py:53 | `f"• {sentence}\n\n"`: the bullet mark, the sentence and a blank line, so it starts with `•`, ends with a newline and is 4 characters longer than the sentence |
| AppLight.Blob | app_light.py:49-53 | the bullet text is empty exactly when there are no sentences, and each sentence adds at least its bullet mark and blank line |
| AppLight.BlobAppend | app_light.py:53 | appending a sentence appends exactly its `"• " + s + "\n\n"` item to the text |
| AppLight.BlobPrefixStep | app_light.py:53 | one more pass of the loop appends exactly the next bullet's item to the text built so far |
| AppLight.FormatBulletPoints | app_light.py:49-53 | the loop builds exactly the in-order concatenation of `"• " + s + "\n\n"` over the sentences, each with its missing period added |
| AppLight.BlankSummaryEmptyBlob | app_light.py:47-53 | an empty or whitespace-only summary gives an empty bullet text (and download content) |
| AppLight.Run | app_light.py:22-68 | no file gives `Idle`; a file not declared `text/plain` is rejected; an accepted file waits for the button; the run is `Done` if and only if decoding and summarization both succeed with at least one candidate; every failure message carries the error prefix |
| AppLight.RejectionCallsNothing | app_light.py:23 | a non-`text/plain` file gives the rejection message whatever the decoder and summarizer would do |
| AppLight.OnlyFirstCandidateMatters | app_light.py:36-44 | the summarizer is consulted only on the decoded text with the fixed parameters, and only its first candidate affects the result |
| AppLight.DoneShowsFirstCandidate | app_light.py:33-55 | a successful run shows the preview of the decoded text and the bullet text of the first candidate |
| AppLight.FailureShowsError | app_light.py:29-66 | a decode or summarizer failure, or an empty candidate list (`list index out of range`), becomes an error message with no bullets; the preview is shown only if decoding succeeded |
| App.ParamsConsistent | app.py:41-46 | the full request uses min 30 <= max 150 tokens and no sampling |
| App.Lines | app.py:58 | the lines `st.write(f"â€¢ {sentence}")` writes: one per sentence, in order, each the prefix `"â€¢ "` followed by exactly that sentence |
| App.DisplayLines | app.py:52-58 | `DisplayLines(t)` is `Lines(Bullets(t))`: one line per bullet, so never more lines than fragments of the split |
| App.WriteBulletLines | app.py:54-58 | one line per sentence, in order: line `k` is exactly `"â€¢ "` followed by sentence `k` with its missing period added |
| App.LinesFollowBullets | app.py:58 | writing sentences that end in `.` and start with non-whitespace gives one line each, the prefix followed by such a sentence |
| App.LinesWellFormed | app.py:54-58 | the number of lines equals the number of bullets, and every line is the prefix followed by a non-blank sentence ending in `.` |
| App.BlankSummaryWritesNothing | app.py:52-58 | an empty or blank summary writes no bullet line |
| App.Run | app.py:26-63 | no file gives `Idle`; a file not declared `text/plain` is rejected; an accepted file waits for the button; the run is `Done` if and only if decoding and summarization both succeed with at least one candidate; every failure message carries the error prefix |
| App.RejectionCallsNothing | app.py:28 | a non-`text/plain` file gives the rejection message whatever the decoder and summarizer would do |
| App.OnlyFirstCandidateMatters | app.py:41-49 | the summarizer is consulted only on the decoded text with the fixed parameters, and only candidate 0 affects the result |
| App.DoneShowsFirstCandidate | app.py:37-58 | a successful run shows the preview of the decoded text and the bullet lines of the first candidate |
| App.FailureShowsError | app.py:35-61 | a decode or summarizer failure, or an empty candidate list (`list index out of range`), becomes an error message with no bullet line; the preview is shown only if decoding succeeded |

## Left out

- Streamlit rendering is not modelled. This covers the title, uploader, button, spinner,
  expander, subheaders, the Markdown rendering of the bullet text, and the download button's
  file name and MIME type. They are widget calls with no logic of their own.
- The success message shown next to a `Failed` or `Done` run is not modelled. `Run` records
  only what that run adds.
- Loading the model and memoizing it with `@st.cache_resource` is not modelled. The
  summarizer is an opaque function parameter.
- `notebook_login()` is not modelled. It is network authentication.
- The transformers pipeline internals (tokenization, beam search, weights) are not modelled.
  The summarizer is a parameter that returns candidates or an error message.
- UTF-8 decoding is an abstract `Decoder` parameter, not a verified decoder.
- Retrying after a failure is not modelled separately. Each press of the button is a fresh
  call to `Run` with the same file.
- A candidate without a `summary_text` key (a `KeyError`) is not modelled. `Candidate`
  always carries its text.
- The Python code has no concurrency, and none is modelled.
- Text.Split: models `str.split` only for the separator `". "`, the only one the scripts
  pass. A separator that can overlap itself, or an empty one, is not modelled.
