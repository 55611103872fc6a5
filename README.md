# Vocabulary generator: generation history and word store

`vocab_app.py` is a single-user Streamlit app. It asks a language model for
batches of English vocabulary or phrasal verbs, asks the model to avoid the
words it produced earlier for the same topic or level, and saves chosen items into an SQLite table. This project models
the parts of that app that compute and keep state, and proves what they promise:

- **The request builder** of `call_gpt_for_vocab` and
  `call_gpt_for_phrasal_verbs` (modules `Prompt`, `Sorting`, `Text`):
  - falsy (empty) forbidden words are dropped and the rest are stripped, so a
    whitespace-only entry becomes `""` and stays; the result is deduplicated,
    sorted, cut to 200 and joined into a "do not reuse" block;
  - the instruction carries the mode and topic, the item count, the rarity
    level and a seed in `1..1_000_000`.
- **The generation history** (module `History`): for each context (the
  normalised topic, or the rarity level for phrasal verbs) it holds the set of
  normalised words generated so far. `Absorb` is the loop that merges a batch
  into such a set.
- **The two generation pages** (module `Pages`, class `Session`):
  - the API-key guard;
  - the model call, a parameter that answers with parsed JSON elements or an
    error;
  - the early return when the call fails;
  - the update of the history and of the `last_*` session fields.
- **The `vocab` table** (module `Store`, class `Table`):
  - `insert_vocab_items` runs a transaction of INSERTs with AUTOINCREMENT ids
    and rolls the whole batch back when one INSERT raises;
  - `get_recent_items`, `get_random_items` and the rows of `export_to_csv` are
    functions of the table's rows;
  - random sampling is a nondeterministic choice.
- **`init_db`** (module `Schema`): it creates the table if it is absent, then
  adds the `difficulty` column, and ignores the duplicate-column error.

The model is built on shared definitions (modules `Wrappers`, `Items`):
- Python's `str.strip` is modelled with the full `str.isspace` set.
- `str.lower` is modelled on ASCII letters.
- `sorted` on strings uses code-point lexicographic order.
- SQLite reads a negative `LIMIT` as "no limit", and `difficulty = ?` never
  matches NULL.

## Model

| member | source | states |
|---|---|---|
| Text.StripShape | vocab_app.py:172 | `w.strip()` is a slice of `w` framed by whitespace only; it neither starts nor ends with whitespace; it is empty exactly when `w` is all whitespace; a word without surrounding whitespace is returned unchanged |
| Text.Lower | vocab_app.py:294 | `lower()` keeps the length and maps each character on its own (ASCII letters to lower case) |
| Text.NormaliseShape | vocab_app.py:294 | `strip().lower()` gives a string without surrounding whitespace and without upper-case ASCII letters; it is empty exactly when the input is blank |
| Text.NormaliseIdempotent | vocab_app.py:323 | normalising a normalised word changes nothing, so case and whitespace variants of a word share one history entry |
| Text.LessTotal | vocab_app.py:172 | the order `sorted` uses is total: two different strings are always comparable |
| Text.LessTransitive | vocab_app.py:172 | the order `sorted` uses is transitive |
| Text.LessAsymmetric | vocab_app.py:172 | no two strings each sort before the other |
| Text.EmptyIsLeast | vocab_app.py:172 | the empty string sorts before every other string |
| Text.Join | vocab_app.py:174 | `sep.join(parts)` lays the parts out in order: part k starts at the summed lengths of the earlier parts, each followed by `sep`; `sep` follows every part but the last; the length is the parts' total length plus `len(parts) - 1` separators; joining nothing gives `""` |
| Text.JoinLayoutUnique | vocab_app.py:174 | any string with that layout is `sep.join(parts)`: the join holds the parts and separators and nothing else |
| Sorting.Insert | vocab_app.py:172 | adding one string to a strictly sorted list keeps it strictly sorted and adds exactly that string |
| Sorting.InsertAll | vocab_app.py:172 | `sorted(set(xs))`: a strictly sorted list holding exactly the elements of `xs` |
| Sorting.SortedLength | vocab_app.py:172 | a strictly sorted list has no duplicates: its length is its number of distinct elements |
| Sorting.ListingUnique | vocab_app.py:172 | two strictly sorted lists with the same elements are equal: `sorted` of a set is determined by the set |
| Sorting.SortedOf | vocab_app.py:296 | `sorted(s)` for a set `s`: strictly sorted, with exactly the members of `s`, one per member |
| Sorting.SortedListing | vocab_app.py:296 | the loop that inserts the members of a set one at a time returns `sorted(s)` |
| Sorting.Take | vocab_app.py:174 | `xs[:n]` is a prefix of `xs` of length `min(n, len(xs))` |
| Sorting.TakeKeepsSmallest | vocab_app.py:174 | cutting a sorted list keeps it sorted and keeps its smallest elements: every dropped element sorts after every kept one |
| Prompt.StrippedTruthy | vocab_app.py:172 | the stripped truthy entries hold exactly the members of `{w.strip() for w in forbidden_words if w}` |
| Prompt.ForbiddenList | vocab_app.py:170-174 | the forbidden list is strictly sorted (so duplicate-free) and has length `min(#candidates, 200)`; it holds only candidates; every candidate it drops sorts after every one it keeps |
| Prompt.ForbiddenIsFirstOfSorted | vocab_app.py:172-174 | the forbidden list is exactly `sorted({w.strip() for w in forbidden_words if w})[:200]` |
| Prompt.ForbiddenKeepsAllWhenSmall | vocab_app.py:174 | with at most 200 candidates, every candidate is forbidden |
| Prompt.ForbiddenEmptyIff | vocab_app.py:170-173 | the list is empty exactly when `forbidden_words` is `None` or empty or all its entries are falsy |
| Prompt.BlankEntryForbidsEmptyString | vocab_app.py:172-173 | a whitespace-only entry is truthy: its stripped form `""` is forbidden and listed first |
| Prompt.ForbiddenBlock | vocab_app.py:170-180 | the block is `""` exactly when the forbidden list is empty. Otherwise it is the mode's heading, then the forbidden list (at most 200 words, sorted) joined with `", "`, then the closing line, so it contains every forbidden word and no other listed word |
| Prompt.BuildInstruction | vocab_app.py:168-202 | the instruction carries the mode and topic, count, rarity level and seed it was given, with the seed in `1..1_000_000`; its block is the forbidden block of those words for that mode, empty exactly when nothing is forbidden and containing every forbidden word |
| History.NewWordsExactly | vocab_app.py:321-326 | a batch adds a word exactly when the word is non-empty and is `(it.get("word") or "").strip().lower()` of one of its items |
| History.NewWordsNormalised | vocab_app.py:321-326 | every word a batch adds is non-empty and normalised |
| History.Absorb | vocab_app.py:321-327 | the absorption loop adds the batch's new words to the set. When the loop raises at the first non-object element, it has already added the words of the elements before it |
| History.FirstNonObject | vocab_app.py:322-323 | the element at which the loop raises is a non-object, and every element before it is an object |
| History.MergeAsWritten | vocab_app.py:316-327 | the merge as written raises exactly when the batch holds a non-object element. On a clean batch it equals the validated merge. On a batch that raises, a context already stored gains the new words of the elements before the first non-object, and an absent context stays absent. Other contexts are untouched, and the context's set never shrinks |
| History.MergeBatch | vocab_app.py:304-327 | the validated merge: on a bad batch nothing changes; otherwise the context gains exactly the batch's new words, other contexts are untouched and the history stays normalised |
| History.MergeOnlyGrows | vocab_app.py:321-327 | a word that appears in any context after the validated merge either was already there, or is the non-empty normalised word of an item of the batch in the merged context |
| History.PartialMergeOnMalformedBatch | vocab_app.py:316-327 | the page as written raises on `[{"word": "Fever"}, 42]` but leaves "fever" in the stored set of "doctor visit"; the validated merge leaves the history unchanged |
| Pages.Ask | vocab_app.py:296-310 | without an API key nothing is sent. Otherwise the instruction is built from `sorted` of the context's history, and the answer is the client's answer to that instruction |
| Pages.Session.ReceiveVocab | vocab_app.py:315-327 | the validated receiver (the corrected half of the finding below): publishes the batch, the topic, the difficulty and the grown history only when every element is usable; otherwise the session is unchanged; the history stays normalised |
| Pages.Session.GenerateVocab | vocab_app.py:286-327 | the vocabulary page with the batch validated before anything is published: the corrected half of the finding below, which differs from the source on a batch with a non-object element. If there is no key or the call fails, the whole session is left exactly as it was. On success, the topic's context gains the batch's words, and the phrasal fields are untouched |
| Pages.Session.ReceiveVocabAsWritten | vocab_app.py:315-327 | sets the last-batch fields first, then merges as written: on a bad element it raises, and the stored set keeps the words absorbed before it |
| Pages.Session.GenerateVocabAsWritten | vocab_app.py:286-327 | the vocabulary page as written. If there is no key or the call fails, nothing changes; otherwise the last fields are set, and the history is the as-written merge |
| Pages.Session.ReceivePhrasal | vocab_app.py:392-403 | as `ReceiveVocab` (validated), with the rarity level as the context |
| Pages.Session.GeneratePhrasal | vocab_app.py:367-403 | the phrasal page with the batch validated before anything is published: the corrected half of the finding below, which differs from the source on a batch with a non-object element. If there is no key or the call fails, the whole session is unchanged. On success, the level's context gains the batch's words, and the vocabulary fields are untouched |
| Pages.Session.ReceivePhrasalAsWritten | vocab_app.py:393-403 | sets the last phrasal fields first, then merges into the level's context as written: on a bad element it raises, and the stored set keeps the words absorbed before it; the vocabulary fields are untouched |
| Pages.Session.GeneratePhrasalAsWritten | vocab_app.py:367-403 | the phrasal page as written. If there is no key or the call fails, nothing changes; otherwise the last phrasal fields are set, and the level's history is the as-written merge |
| Store.FirstUnsavable | vocab_app.py:61-76 | the INSERT that raises is the first whose element is not an object or has a null `word`; every element before it can be stored |
| Store.InsertResult | vocab_app.py:57-77 | an empty batch returns at once; a batch is committed exactly when every element can be stored; otherwise it is rolled back at the first element that cannot |
| Store.NewRows | vocab_app.py:61-76 | one row per item, in batch order, with consecutive ids; each row has the item's four fields and the shared topic, tag and difficulty |
| Store.Table.Insert | vocab_app.py:46-78 | an empty batch or a failed INSERT leaves the table and the id counter unchanged. A committed batch of n items appends exactly its n rows, with fresh increasing ids, after the untouched old rows, and the ids stay ordered |
| Store.LimitCount | vocab_app.py:119 | `LIMIT limit` over n rows returns `min(limit, n)` rows, or all n when the limit is negative |
| Store.Recent | vocab_app.py:111-125 | `get_recent_items` returns `min(limit, total)` stored rows in strictly descending id order; every row it leaves out has a lower id than every row it returns |
| Store.Matching | vocab_app.py:95-105 | `WHERE difficulty = ?` keeps exactly the rows with that difficulty (never a NULL one), in id order; with no difficulty, every row |
| Store.SampleRandom | vocab_app.py:81-108 | `get_random_items` returns `min(limit, #matching)` matching stored rows, none more often than it is stored |
| Store.SampleDistinct | vocab_app.py:85-106 | a random sample never returns a row twice: its ids are pairwise distinct |
| Store.ExportTable | vocab_app.py:128-156 | the export is the fixed eight-column header followed by one record per stored row, each row once, in ascending id order |
| Store.ExportReversesRecent | vocab_app.py:114-136 | the export order is exactly the reverse of `get_recent_items` with no limit |
| Store.RecentAfterInsert | vocab_app.py:61-122 | right after a batch is appended, the `len(batch)` most recent rows are that batch, newest first |
| Schema.CreateIfAbsent | vocab_app.py:22-36 | an existing table is kept as it is; a missing one is created with the nine columns and no rows |
| Schema.AddDifficulty | vocab_app.py:37-41 | `ALTER TABLE ... ADD COLUMN difficulty` fails exactly when the column exists; otherwise it appends the column, with NULL in every row |
| Schema.InitDbSchema | vocab_app.py:18-43 | after `init_db` the table has a `difficulty` column. A new database has the full schema and no rows. A table that already had the column is untouched. An older table keeps its rows, in order, each with its difficulty set to NULL |
| Schema.InitDbIdempotent | vocab_app.py:18-43 | running `init_db` twice is the same as running it once |

## Left out

- The Streamlit interface is not modelled: headers, sliders, text inputs,
  buttons, the review/quiz and recent/export pages, and the per-item and
  "save all" buttons that call `insert_vocab_items`.
  - The sliders bound `num_items` to 5..30 and the rarity to 1..5. The model
    accepts any integer, as the functions themselves do.
- The model call, with its client, model name and temperature, and the
  `json.loads` of its answer are one parameter, `Pages.Client`. It answers
  either a sequence of elements or an error message.
  - A JSON value that is not an array, and so is not iterated element by
    element, is not modelled.
- The API-key lookup in the environment is a boolean parameter.
- `random.randint` is a seed parameter in `1..1_000_000`.
- `CURRENT_TIMESTAMP` is a parameter `now` per batch. Rows of one batch that
  SQLite stamps in different seconds are not modelled.
- Prompt wording is mostly not modelled. Only the block's heading and closing
  line are kept, plus the parts the request builder fills in: mode and topic, count,
  rarity level, seed and forbidden block.
- Text.Lower: only ASCII letters are lowered; Python's `str.lower` also lowers
  non-ASCII letters.
- Items.VocabItem: field values are strings or null.
  - An element that is not an object, or an object whose `word` is a truthy
    non-string, is the single case `NonObject`, on which the history loop
    raises; the model makes the INSERT raise on it too.
  - SQLite would store a non-string `word`, so Store.Table.Insert rolls back a
    batch that SQLite would commit.
- Prompt.ForbiddenList: entries of `forbidden_words` are strings. Every caller
  passes the sorted history, which holds strings only.
- Connections, cursors, the file on disk and the CSV writer's quoting are not
  modelled. The export is the header plus the selected values as cells.
  `export_to_csv` returning the file name is not modelled.
- Store.SampleRandom draws without replacement, in an unspecified order, in
  place of `ORDER BY RANDOM()`. No distribution is modelled.
- `get_random_items` and `get_recent_items` are stated over the table's rows,
  which the table keeps in id order (`Store.Table.Valid`). The model does not
  cover a database whose rows were deleted or written by another program.
- The table is created empty by `Store.Table.constructor`. `Schema` models the
  column list separately, so one value does not carry both the rows of
  `Store.Table` and the schema.
- `call_gpt_for_vocab` and `call_gpt_for_phrasal_verbs` do not check count or
  difficulty ranges, and neither does the model.

## Findings

| source | as written | input that shows it | evidently intended | confidence | as-written member | corrected member |
|---|---|---|---|---|---|---|
| vocab_app.py:316-327 (and 393-403) | the last-batch fields are set and the history loop runs outside the `try`; an element without `.get` (or with a truthy non-string `word`) raises in mid-loop after earlier words were added in place to the context's stored set | history `{"doctor visit": {"checkup"}}`, topic "doctor visit", answer `[{"word": "Fever"}, 42]`: the page raises, yet "fever" is now forbidden for that topic and the broken batch is the last batch | a batch either updates the history and the last-batch fields completely or not at all | not executed | History.MergeAsWritten, Pages.Session.GenerateVocabAsWritten, Pages.Session.GeneratePhrasalAsWritten, History.PartialMergeOnMalformedBatch | History.MergeBatch, Pages.Session.GenerateVocab, Pages.Session.GeneratePhrasal |
