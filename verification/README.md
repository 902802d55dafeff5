# GitHub bot scraper: enrichment and persistence, in Dafny

This project models the ingestion pipeline of the bot-finder scraper. The
two scripts `main.py` and `scraper.py` search GitHub for Telegram bots.
For each repository they:

- fetch the README;
- ask Gemini for a summary;
- settle the repository kind, either through the AI answer or through a
  keyword heuristic;
- build a flat record;
- re-save everything processed so far to `bots_data.json` and to a MongoDB
  collection, upserting by `full_name`.

`load_env` reads the `.env` settings file.

Modules follow the program's structure:

| module | file | models |
|---|---|---|
| `Wrappers` | wrappers.dfy | Python's `None` / missing key as `Option`, and string truthiness |
| `Text` | text.dfy | the `str` operations used: `strip`, `lower`, `in`, `find`/`index`, `startswith`/`endswith`, `replace`, `join` |
| `Records` | records.dfy | the search item, the summary dictionary, the stored record |
| `Heuristic` | heuristic.dfy | `get_repo_type_heuristic` |
| `AiSummary` | ai_summary.dfy | `get_gemini_summary`: degraded modes and reply clean-up |
| `Assembly` | assembly.dfy | README fallback and `process_bot`, in both scripts' variants |
| `Store` | store.dfy | `save_to_mongodb` as ordered upserts into a map keyed by `full_name` |
| `Sync` | sync.dfy | the `run` loops: `limit`, per-item JSON rewrite and full re-save |
| `EnvFile` | env_file.dfy | `load_env` |

The outside world is represented by parameters:

- **`get_file_content`** is a function from (owner, repo, path) to text. It returns `""` on any failure, as the source does.
- **The Gemini call** is a function from (description, README excerpt) to an optional reply. `None` means the call raised.
- **`json.loads`** is a function from candidate text to an optional summary.
- **MongoDB faults** are given per save: the index of the `update_one` that raises, if any.
- **`writable`** says, for the write after item `i`, whether the JSON file can be written.
- **The `.env` file** is given as its lines. `None` means the file does not exist.

The main results:

- **Heuristic.** The keyword heuristic answers "Library/Module" exactly when a library keyword occurs, or when there is no application keyword, the language is Python and the README mentions `setup.py` or `pyproject.toml`.
- **Bare or fenced reply.** A reply that is a bare object without `'` is decoded as exactly that object. So is a fenced reply with prose around one such object, provided the prose before it has no `{` and the prose after it has no `}`.
- **Reply without braces.** A reply without a brace pair always yields the failure default.
- **The two scripts' records.** They differ only in `repo_type`. Without a model, `main.py` always stores a canonical kind, while `scraper.py` stores "Unknown".
- **Re-saving.** It is idempotent and does not depend on what an earlier partial save left behind. The last record with a key wins.
- **Failures during a run.** However the saves fail along the way, the collection never changes a document outside the processed keys. Every save that completes holds the initial documents upserted with exactly the list processed up to that point.
- **`load_env`.** A `KEY=value` line reads back as its pair, and the last assignment of a key wins. Blank lines, comments and lines without `=` change nothing.

## Model

| member | source | states |
|---|---|---|
| Text.Strip | main.py:81 | the result has no leading or trailing white space (Python's `isspace` set), uses only characters of the input, and text already without such padding is unchanged |
| Text.StripPadded | main.py:228 | stripping white-space padding around a word gives back exactly the word |
| Text.Lower | main.py:126 | lower-casing keeps the length and maps each character independently |
| Text.LowerKeepsLowerCaseOccurrence | main.py:126-131 | a keyword without upper-case letters that occurs in the text still occurs after lower-casing, at the same place |
| Text.FindFirst | main.py:131 | the result is the first index where the word occurs; no result means it occurs nowhere |
| Text.Contains | main.py:131-135 | Python's `k in s` holds exactly when `k` occurs in `s` at some index |
| Text.FirstIndexOf | main.py:230 | the first `=` of a line: absent exactly when the character does not occur, and no earlier position holds it |
| Text.LastIndexOf | main.py:89 | the last `}` of the reply: absent exactly when the character does not occur, and no later position holds it |
| Text.ReplaceChar | main.py:93 | every `'` becomes `"` and nothing else changes, so no `'` is left |
| Text.ReplaceAbsentChar | main.py:93 | replacing a character that does not occur changes nothing |
| Text.Join | main.py:163 | joining no parts gives the empty text and one part gives that part; SplitJoin shows the `", "`-join of topics splits back into them |
| Text.SplitJoin | main.py:163 | the `", "`-joined topics split back into the same topics when none is empty or contains a comma |
| Heuristic.AnyContains | main.py:131-132 | `any(k in text for k in keys)` holds exactly when some keyword occurs in the text |
| Heuristic.ClassifierText | main.py:126 | the text the keywords are sought in is exactly the lower-cased name, description and README joined by single spaces, so no ASCII upper-case letter is left |
| Heuristic.LibraryKeywordAnywhere | main.py:126-131 | a library keyword occurring in the lower-cased name, description or README, at any position, makes the answer "Library/Module" |
| Heuristic.RepoTypeHeuristic | main.py:124-138 | the answer is always canonical; it is "Library/Module" exactly when a library keyword occurs in the lower-cased name, description and README, or when no application keyword occurs, the language is "Python" and the raw README mentions `setup.py` or `pyproject.toml` |
| AiSummary.ReadmeExcerpt | main.py:74 | the prompt embeds a prefix of the README of length min(len, 5000) |
| AiSummary.MissingKeySummary | main.py:65-66 | without a configured model the description is passed through, the how-to is a non-empty notice and the kind is not one of the two canonical ones |
| AiSummary.FailureSummary | main.py:99-103 | the failure default names "Application/Bot", always has a non-empty description and how-to, and keeps a non-empty description |
| AiSummary.DropOpeningFence | main.py:85 | an opening "```json\n" is removed, else an opening "```\n"; any other text, such as "```python\n…", is unchanged; the removed part holds no brace |
| AiSummary.DropClosingFence | main.py:86 | a trailing "\n```" is removed; a trailing "\n```\n" loses the fence but keeps the final newline, as `$` matches before it; any other text is unchanged; the result is a prefix and the removed part holds no brace |
| AiSummary.Unfence | main.py:84-86 | fence removal applies only when the text starts with three backticks and adds no character; a text with neither recognised opening nor recognised closing is unchanged |
| AiSummary.ObjectSpan | main.py:89-91 | a match exists exactly when some `{` precedes some `}`; it runs from the first `{` to the last `}` |
| AiSummary.ObjectCandidate | main.py:89-93 | a candidate exists exactly when a `{` precedes a `}`; it is the greedy span with every `'` replaced by `"`, brace-delimited and free of `'` |
| AiSummary.ObjectSpanPadded | main.py:89-91 | brace-free text on either side of a text does not change its object span |
| AiSummary.UnfenceKeepsSpan | main.py:84-91 | fence removal never changes the object span, recognised fence or not |
| AiSummary.FencesNeverMatter | main.py:81-93 | the text handed to the decoder is the object candidate of the stripped reply, whether or not the reply was fenced |
| AiSummary.CandidateJson | main.py:81-93 | a candidate exists exactly when the stripped, unfenced reply has a `{` before a `}`; it is then that text's span from the first `{` to the last `}` with every `'` replaced by `"`, so it is brace-delimited and free of `'` |
| AiSummary.Summarize | main.py:63-103 | with no model the missing-key summary ("Unknown"); when the call fails, when the reply has no candidate, or when `json.loads` rejects the candidate, the failure default; otherwise exactly the decoded candidate |
| AiSummary.SummaryDecodedOrDefault | main.py:77-103 | with a model the summary is either the failure default or the decoding of the reply's own candidate, a brace-delimited, `'`-free text |
| AiSummary.NoBraceMeansFailure | main.py:89-103 | a reply lacking `{` or `}` always gives the failure default |
| AiSummary.SummaryReadsOnlyExcerpt | main.py:74 | README text past the first 5000 characters cannot change the summary |
| AiSummary.EmbeddedObjectSpan | main.py:89-91 | in prose without braces around an object, the regular-expression match is exactly the object |
| AiSummary.FencedReplyDecoded | main.py:81-94 | a reply fenced with or without the `json` tag, holding an object without `'` between prose without `{` before it and prose without `}` after it, is decoded as that object |
| AiSummary.PlainReplyDecoded | main.py:81-94 | a reply that is a bare object without `'` is decoded as that object |
| AiSummary.UnfenceWrapped | main.py:84-86 | stripping and unfencing a fenced reply gives back its body |
| AiSummary.DropClosingFenceOf | main.py:86 | the closing fence at the end of the text is removed and nothing else |
| Assembly.FetchReadme | main.py:147-149 | `README.md` is used when non-empty, `readme.md` otherwise; the README is empty exactly when both come back empty |
| Assembly.FullName | main.py:160 | the key is the owner, a `/`, then the name |
| Assembly.Enrichment | main.py:147-151 | the AI step sees the README FetchReadme picks and the description, `""` when missing: without a model it gives the missing-key summary, and when the call fails the failure default |
| Assembly.FullNameInjective | main.py:160 | when owners contain no `/`, equal `owner/name` keys mean equal owner and name |
| Assembly.LicenseName | main.py:169 | a missing, null or empty license object gives "None"; a non-empty one gives its `name`, null when it has none |
| Assembly.ResolveRepoType | main.py:153-155 | the stored kind is never empty; a confident AI kind is kept; otherwise main.py uses the heuristic (so the kind is canonical) and scraper.py uses "Application/Bot" for a missing or empty kind but keeps "Unknown" |
| Assembly.ProcessBot | main.py:140-173 | the record copies the descriptor's fields, keys it by `owner/name`, joins topics with ", ", stores the kind the script's rule resolves (a confident AI kind is kept), the license's name or "None", the AI how-to when it is non-empty and the generic one otherwise, and the AI description or the repository's own |
| Assembly.NoModelRecord | main.py:65-66 | without a model, main.py stores the heuristic's canonical kind and scraper.py stores "Unknown"; the description becomes `what_it_does` |
| Assembly.AiFailureRecord | main.py:96-103 | when the model call fails both scripts store "Application/Bot", the generic how-to, and the description or "No description available" |
| Assembly.VariantsDifferOnlyInRepoType | scraper.py:112-137 | the two scripts build the same record apart from `repo_type`, and agree on it when the AI kind is confident |
| Assembly.CategoryRecoversTopics | main.py:163 | the category text splits back into the topics |
| Assembly.DistinctRepositoriesDistinctKeys | main.py:160 | repositories that differ in owner or name get different upsert keys |
| Assembly.AcmeExample | main.py:140-173 | "acme/tgbot", described as "A wrapper for Telegram", with no README and no model, is stored as "Library/Module" with license "None" and category "telegram, sdk" |
| Store.LastIndexWithKey | main.py:188-193 | the position of the last record with a key: present exactly when some record has the key, and no later record has it |
| Store.UpsertAll | main.py:188-193 | the stored keys are the old keys plus the records' keys; documents under other keys are untouched |
| Store.UpsertLastWins | main.py:188-193 | under an upserted key the collection holds the last record with that key |
| Store.Reached | main.py:186-196 | a raising `update_one` at index `f` stops the loop there, so exactly the first `f` calls take effect; a fault index past the list, or no fault, lets every call take effect |
| Store.SaveResult | main.py:184-185 | a save leaves a collection present exactly when there was one |
| Store.SaveToMongo | main.py:183-196 | with no collection nothing happens; otherwise the records are upserted in order up to the first failing call |
| Store.UpsertTouchesOnlyItsKeys | main.py:188-193 | an upsert agrees with the previous collection outside the records' keys |
| Store.UpsertOverwrites | main.py:188-193 | the result of re-saving a list does not depend on what was stored under its keys before |
| Store.UpsertIdempotent | main.py:188-193 | saving the same list twice is saving it once |
| Store.UpsertKeepsCount | main.py:187-193 | re-saving records whose keys are all stored adds no document |
| Sync.SlicePrefix | scraper.py:157 | Python's `s[:n]` is a prefix with min(n, len) elements for n >= 0, and drops -n elements from the end for n < 0 |
| Sync.ApplyLimit | scraper.py:156-157 | a missing or zero limit keeps every candidate; any other limit keeps a prefix of the lengths Python's slice gives |
| Sync.SaveStep | main.py:216 | one more re-save keeps agreement with the initial collection outside the processed keys, and a complete one equals the initial collection upserted with the whole list |
| Sync.ProcessAll | main.py:203-205 | result `i` is the processed candidate `i`, and there is one per candidate |
| Sync.NextState | main.py:207-216 | after one item a collection is present exactly when it was before |
| Sync.StateAfter | main.py:202-216 | the durable state after each item in turn: a collection is present exactly when one was at the start |
| Sync.TraceAt | main.py:202-218 | checkpoint `i` saves the first `i + 1` records and holds the state reached after them |
| Sync.LastWritable | main.py:207-213 | the last item, among the first `n`, after which the file could be written: it is writable, no later one is, and there is none exactly when no item's write succeeded |
| Sync.StateFiles | main.py:207-213 | the JSON file holds the list as it stood after the last write that succeeded, or what it held before the run when none did; a collection is present throughout or never |
| Sync.StateAgrees | main.py:215-216 | however the saves fail, the collection agrees with the initial one outside the processed keys |
| Sync.StateHealthy | main.py:215-216 | a save that completes holds the initial collection upserted with the whole list, whatever earlier saves left behind |
| Sync.TraceStep | main.py:203-216 | one more item appends exactly one checkpoint |
| Sync.SaveProgress | main.py:207-216 | after one item the JSON file holds the list processed so far when it can be written and is untouched otherwise; the collection is present iff it was, changes only under the list's keys, and holds the whole list upserted when no `update_one` call fails |
| Sync.SaveEachStep | main.py:202-218 | the loop processes every candidate in order and its checkpoints and final state are those of the run's reference definition |
| Sync.TraceHealthy | main.py:215-216 | after every item whose save completes, the collection is the initial one upserted with the list processed so far |
| Sync.TraceFiles | main.py:207-213 | after every item the JSON file holds the list as it stood after the last write that succeeded so far, and a collection is present throughout or never |
| Sync.Checkpoints | main.py:202-218 | checkpoint `i` saves the first `i + 1` records; its JSON file and collection are as StateFiles and TraceHealthy state |
| Sync.Settled | main.py:198-220 | the state a run ends in: the initial state for no candidates; the JSON file holds the list as of the last write that succeeded (the whole list when the last one did, the initial file when none did); the collection is present iff it was, agrees outside the processed keys, and is complete when the last save completes |
| Sync.RunMain | main.py:198-220 | `run()` processes every search result in order; checkpoint `i` saves the first `i + 1`, its JSON file holds the list as of the last write that succeeded, and its collection is the initial one upserted with the first `i + 1` when that save completes; the end state is as Settled states |
| Sync.RunScraper | scraper.py:153-171 | `run(limit)` processes the first candidates that the slice keeps, in order; each checkpoint and the end state carry the same guarantees as RunMain's |
| EnvFile.ParseEnvLine | main.py:228-231 | a line sets nothing exactly when it strips to blank, has no `=` or starts with `#`; otherwise the key has no `=` and both parts are stripped |
| EnvFile.Skipped | main.py:228-229 | a line without `=` and a line of white space only are skipped; ParseEnvLine sets nothing exactly for skipped lines |
| EnvFile.Assign | main.py:224-231 | the settings' keys are exactly the keys some line sets |
| EnvFile.AssignLastWins | main.py:231 | a key's value comes from the last entry that sets it |
| EnvFile.AssignIgnoresTrailing | main.py:229 | entries that set nothing, appended at the end, change nothing |
| EnvFile.AssignIgnoresEmpty | main.py:229 | entries that set nothing change nothing, wherever they stand among the others |
| EnvFile.LoadLines | main.py:226-232 | a key is set exactly when some line parses to it |
| EnvFile.LoadEnv | main.py:222-232 | no `.env` file gives no settings; otherwise a key is set exactly when some line parses to it |
| EnvFile.LastAssignmentWins | main.py:227-231 | the value of a key is the one on the last line that sets it |
| EnvFile.SkippedLinesIgnored | main.py:229 | blank lines, comments and lines without `=` change nothing, wherever they stand in the file |
| EnvFile.ParseAtFirstEquals | main.py:230 | a line splits at the first `=` of its stripped text, so values may contain `=` |
| EnvFile.ParseAssignment | main.py:228-231 | `KEY=value` reads back as the pair it was written from |
| EnvFile.SpacedAssignment | main.py:228-231 | `KEY = value` with a line terminator also reads back as its pair |

## Left out

- HTTP (`_make_github_request`, `search_telegram_bots`), base64 and UTF-8 decoding: `get_file_content` is a parameter that returns `""` on failure, and the search result is the candidate list given to the run.
- The Gemini prompt text and `generate_content`: the model is a parameter that sees the description and the README excerpt. The prompt's fixed wording is not modelled.
- `json.loads` is a parameter. Decoded values other than strings are not represented: the summary's fields are optional strings, so a JSON `null`, number or list in a summary key is outside the model.
- `time.sleep` pacing (2 s before each AI call, 5 s or 1 s after each item) has no effect on the data and is left out.
- `MongoClient` set-up and connection errors: the collection is present or absent for the whole run.
- The JSON and CSV file formats: the JSON file is modelled as the list it holds. `save_to_csv` is written in the same `try` as the JSON file and is not modelled.
- A partial write of the JSON file is not modelled: a write either succeeds with the whole list or leaves the previous file.
- `app.py` and `api/index.py` (the HTTP trigger and read endpoints) are not part of this model.
- The `if __name__ == "__main__"` block, which wires the settings into the constructor.
- Text.Lower: only ASCII letters are mapped, while Python's `str.lower` also lower-cases other scripts and can change the length (`İ` becomes two characters). None of the keywords contains a non-ASCII letter, but Python lower-cases the KELVIN SIGN (U+212A) to `k`: a name, description or README spelling "sdk", "toolkit", "framework" or "docker-compose" with that sign matches in Python and not in the model.
- Heuristic.RepoTypeHeuristic: inherits the ASCII-only lower-casing of Text.Lower.
- A missing `owner.login` or `name` in a search item (a `KeyError` that ends the run) is not modelled: the descriptor's owner and name are always present.
- `$set` is modelled as replacing the stored document. Every record carries the same fifteen fields, so no field of an older document survives.
- An exception from `process_bot` ends the run in the source. The model's processing step is total.
- EnvFile.LoadEnv: the file is given as its lines, already split, and an unreadable file is not modelled. Python keeps the line terminator on each line, which `strip` then removes; SpacedAssignment covers this.
- Assembly.ResolveRepoType: the kind is not always canonical, and the model follows the code. The prompt at main.py:71 asks for exactly "Library/Module" or "Application/Bot", but main.py keeps any other non-empty AI answer, and scraper.py keeps "Unknown" when no model is configured (NoModelRecord states both).
