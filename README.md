# AI bias workshop: a Dafny model

This project models the core of a small workshop application. Participants
generate images from prompts with several AI providers and record the
perceived gender bias of each image. An administrator manages a key/value
configuration table. The model covers six parts:

- **GenerateApi** (`api/generate.js`) is the generation endpoint. It checks
  the method and the prompt and dispatches on the provider. For OpenAI it
  reads the first image address. For Replicate it submits a prediction and
  polls it until its status is terminal. Google and Hugging Face answer 501.
  The handler is an imperative method with the poll loop as a `while` loop.
  Its outbound calls are recorded as a trace, and the loop is proved
  against a recursive specification `Poll`.
- **ConfigApi** (`api/config.js`) is the configuration endpoint. It gates
  every request on the `x-admin-passcode` header, which must equal the
  stored `ADMIN_PASSCODE`. It then lists, upserts or deletes rows of the
  `app_config` table. The table is a class `ConfigTable`. Its rows are kept
  in insertion order, `Valid()` holds its invariants, and the map view
  `Mapping()` states what each operation does to the key/value contents.
- **VerifyPasscode** (`api/verify-passcode.js`) is the welcome screen's
  passcode check: a pure decision over the request, the environment and
  the stored passcode.
- **Dashboard** (`src/components/Dashboard.jsx`) counts entries per gender
  and per model. `Tally` is a loop over a map accumulator. The module also
  writes the comma-separated export. An RFC 4180 reader (`ParseCsv`,
  section 2 of RFC 4180, with `\n` between records) serves as the inverse
  for the round-trip lemmas.
- **DataEntry** (`src/components/DataEntry.jsx`) is the observation form
  (class `EntryForm`). It covers the generate button, the submit guard, the
  tag stripper `/<[^>]*>?/gm` and the `provider:model` selector.
- **AdminPanel** (`src/components/AdminPanel.jsx`) is the admin panel
  (class `Panel`). It covers the listing with masked credentials, the
  generation switch, and the save and delete forms.

A small module **Js** holds the JavaScript runtime behaviour that these
rely on:

- `undefined` as `Option`;
- a settled `await` as `Call`, which either returned or threw;
- string truthiness;
- `String.prototype.includes`;
- `Array.prototype.join`.

Network replies, the store's failures and the user's confirmations are
parameters of the operations.

## Model

| member | source | states |
|---|---|---|
| GenerateApi.Handle | api/generate.js:3-90 | Any method other than POST gets 405, and a falsy prompt gets 400; neither calls a provider. `google` gets 501 with no call. `huggingface` makes one inference call and answers 501 whatever the blob is; only a throw gives 500. `openai` answers 500 with `error.message`, or 200 with the first URL. `replicate` submits, then its outcome and calls are those of `Poll` after the submission. Any other provider, including the form's `hf`, gets 200 with `imageUrl` `''` and no call. The status is always one of 200, 400, 405, 500 and 501. |
| GenerateApi.Poll | api/generate.js:51-57 | The polling loop over a given list of replies. It settles on a prediction, breaks on a thrown poll or a prediction without `urls.get`, or runs out of replies. It makes at most one poll per reply plus one, and a break always answers 500. |
| GenerateApi.PollSettlesOnlyWhenTerminal | api/generate.js:51-57 | The poll loop ends with a prediction only when its status is `succeeded` or `failed`. Every call it makes is a poll of `urls.get`, and the number of calls is bounded by the replies consumed. |
| GenerateApi.PollCountsReplies | api/generate.js:51-57 | Suppose the first n-1 replies are non-terminal and the n-th is terminal. Then the loop settles on the n-th reply after exactly n polls. |
| GenerateApi.PollHasNoAttemptBound | api/generate.js:51-57 | However many non-terminal replies come, the loop polls once per reply and asks for one more: it has no attempt bound. |
| GenerateApi.ReplicateStatusMapping | api/generate.js:59-88 | `failed` gives 500 with "Replicate generation failed". `succeeded` with output gives 200 and `output[0]`. A settled loop yields 200 or 500. |
| GenerateApi.AfterPoll | api/generate.js:59-88 | The answer once the loop has ended. Running out of replies is the only way to have no answer yet, and a break passes its 500 on. A settled prediction always gets 200 or 500, and 200 exactly when it did not fail and has an `output`. |
| GenerateApi.WithPrefix | api/generate.js:53-56 | Calls made before the rest of the loop come first in its trace. |
| GenerateApi.Replicate | api/generate.js:48-60 | The polling loop as a loop: it ends in exactly the outcome and with exactly the trace of requests that the poll model gives for the same replies, so it answers either 200 or 500 whenever it answers. |
| ConfigApi.ConfigTable.Handle | api/config.js:3-81 | A missing header gives 401 and a missing URL or service key gives 500, both before the table is read. A passcode that is not exactly the stored one, or a failed lookup, gives 401. GET gives the listing. POST with a falsy key or an undefined value gives 400; otherwise it upserts and returns the row. DELETE deletes by id when the id is truthy, else by key, and gives 400 when it has neither. Any other method gives 405. A store error gives 500 with its message. Every rejected or failed request leaves the rows unchanged, and `Valid()` is kept. |
| ConfigApi.ConfigTable.Upsert | api/config.js:53-56 | The map view becomes the old one with `key` set to `value`. Rows of other keys stay, and the returned row is the one stored. |
| ConfigApi.ConfigTable.Delete | api/config.js:65-70 | Exactly the matching rows go. By key, the map loses that key. By id, it loses the key of the row with that id. Everything else stays. |
| ConfigApi.ConfigTable.Listing | api/config.js:36-42 | The GET listing holds every row, each once, newest `created_at` first. |
| ConfigApi.Upserted | api/config.js:53-56 | The upsert keeps the length of the table when the key has a row and adds one row otherwise. Every existing row keeps its place, id, key and `created_at`, and rows of other keys are untouched. |
| ConfigApi.UpsertedRow | api/config.js:53-56 | The row an upsert leaves for a key holds the new value. It keeps the old row's id and `created_at` when the key had a row, and is a fresh row otherwise. |
| ConfigApi.UpsertSetsOneKey | api/config.js:53-56 | Upsert on `config_key` sets one key and leaves every other key as it was. It keeps one row per key and unique ids, keeps every other row, and appends a new key last in `created_at` order. |
| ConfigApi.UpsertKeepsInvariants | api/config.js:53-56 | An upsert with a fresh id and a later timestamp keeps unique keys, unique ids and ascending `created_at`. |
| ConfigApi.UpsertKeepsOtherRows | api/config.js:53-56 | Every row of another key survives the upsert, the upserted row is present, and no other row appears. |
| ConfigApi.RemoveByKeyDropsKey | api/config.js:67 | Deleting by key removes that key from the map and nothing else. |
| ConfigApi.RemoveByIdDropsItsKey | api/config.js:66 | Deleting by the id of a row removes that row's key from the map and nothing else. |
| ConfigApi.Remove | api/config.js:65-70 | A row survives a delete exactly when it does not match the filter, and the survivors keep their order. |
| ConfigApi.SubsequenceKeepsOrder | api/config.js:65-70 | Deleting rows keeps unique keys, unique ids and `created_at` order. |
| ConfigApi.LookupPasscode | api/config.js:23-29 | On a table with one row per key, the `ADMIN_PASSCODE` lookup with `.single()` gives the value the map view holds for that key. It gives an error when the store fails or no row has the key. |
| ConfigApi.Find | api/config.js:23-27 | The lookup of a key gives a row with that key exactly when the table has one. |
| ConfigApi.MappingAgreesWithFind | api/config.js:23-29 | The map view and the row lookup agree on every key. |
| ConfigApi.ReverseMultiset | api/config.js:36-39 | The newest-first listing is a permutation of the rows. |
| VerifyPasscode.Verify | api/verify-passcode.js:3-51 | The answer is 200 exactly when the method is POST, the passcode is truthy, the environment is configured and the lookup found exactly that passcode. Otherwise the answer is 405, 400, 500 for configuration, 500 "unavailable" on a store error, or 401, in that order of checks. |
| VerifyPasscode.StoreFailureNeverVerifies | api/verify-passcode.js:32-37 | It fails secure: a store failure never yields 200. |
| VerifyPasscode.VerifiedIsAdmitted | api/verify-passcode.js:39-45 | On the same table, the welcome check answers 200 exactly when the configuration endpoint's passcode gate would admit the passcode. A missing row or failing store gives 500 here, where the other endpoint gives 401. |
| Dashboard.Tally | src/components/Dashboard.jsx:14-22 | The reduce counts every value of the column exactly as often as it occurs among the entries. Its keys are exactly the values that occur. |
| Dashboard.Summarise | src/components/Dashboard.jsx:2-22 | No entries gives the placeholder and no statistics. Otherwise it gives the total and the two histograms. |
| Dashboard.HistogramSumsToTotal | src/components/Dashboard.jsx:12-22 | The counts of a histogram, summed over its keys, equal the number of entries. |
| Dashboard.ShownIsCount | src/components/Dashboard.jsx:74-96 | The number shown for a key (its count, or 0 when absent) is the number of entries that carry it, 0 for a gender no entry has. |
| Dashboard.GenderLabel | src/components/Dashboard.jsx:27-39 | The four gender values get their Italian labels; any other value that is not the name of an `Object.prototype` member is shown as it is. |
| Dashboard.QuoteField | src/components/Dashboard.jsx:37-40 | A quoted field starts and ends with a quote and is at least two characters longer than its text. |
| Dashboard.QuotedFieldRoundTrip | src/components/Dashboard.jsx:37-40 | A quoted field, outer quotes added and inner quotes doubled, reads back as exactly the original text. |
| Dashboard.ReadQuotedDoubled | src/components/Dashboard.jsx:37 | Un-doubling the quotes inside a quoted field recovers the text and stops at the closing quote. |
| Dashboard.RowAsWritten | src/components/Dashboard.jsx:36-43 | A row as written has one field per header. The prompt and notes hold the quoted forms of the entry's values, and the other four fields hold the values themselves, unquoted. |
| Dashboard.CsvAsWritten | src/components/Dashboard.jsx:34-45 | The export is the header line alone when there are no entries. Otherwise it is the header line, a newline, and the entries' rows, each comma-joined, joined by newlines. |
| Dashboard.CsvAsWrittenRoundTrip | src/components/Dashboard.jsx:34-45 | The export as written is the header row followed by one record per entry, in order. It reads back with each entry's six values, and missing notes read as the empty string. This holds whenever the unquoted fields contain no comma, newline or quote. |
| Dashboard.DateCommaSplitsRow | src/components/Dashboard.jsx:41-45 | A date text with a comma, as `it-IT` produces, splits its row into seven fields against six headers. |
| Dashboard.CsvRoundTrip | src/components/Dashboard.jsx:34-45 | With every data field quoted, the export always reads back as the header and each entry's six values, in entry order. |
| Dashboard.ReadRecords | src/components/Dashboard.jsx:45 | Lines joined by `\n`, each a comma-joined list of encoded cells, read back as the list of records. |
| Dashboard.ReadDocument | src/components/Dashboard.jsx:34-45 | A header row of plain names followed by encoded records reads back as the header and then the records' texts, in order. |
| Dashboard.ParseCsv | src/components/Dashboard.jsx:45 | The RFC 4180 reader used as the inverse: a document reads as at least one non-empty record. |
| DataEntry.StripTags | src/components/DataEntry.jsx:89-90 | No `<` survives the stripper, and it never lengthens the text. |
| DataEntry.StripTagsSubsequence | src/components/DataEntry.jsx:89-90 | The stripper only removes characters: its output is a subsequence of its input. |
| DataEntry.StripTagsKeepsPlainText | src/components/DataEntry.jsx:89-90 | Text without `<` is unchanged. |
| DataEntry.StripTagsIdempotent | src/components/DataEntry.jsx:89-90 | Stripping twice is stripping once. |
| DataEntry.OneTagStripsToEmpty | src/components/DataEntry.jsx:89 | A prompt that is one tag, closed or unclosed, strips to the empty text. |
| DataEntry.Accepted | src/components/DataEntry.jsx:76-84 | A prompt the submit guard accepts is also at most 500 characters once stripped of tags. |
| DataEntry.LengthCheckedBeforeStripping | src/components/DataEntry.jsx:76-89 | The 500-character limit and the emptiness check look at the prompt as typed. A one-tag prompt is accepted below the limit although it strips to nothing. |
| DataEntry.SelectValue | src/components/DataEntry.jsx:178-180 | The selector value of a provider and a model without colons splits back into exactly that provider and model. |
| DataEntry.Split | src/components/DataEntry.jsx:180 | `split(':')` always gives at least one piece, and no piece contains `:`. |
| DataEntry.SplitJoined | src/components/DataEntry.jsx:178-180 | Joining colon-free pieces with `:` and splitting gives the pieces back. |
| DataEntry.JoinSplit | src/components/DataEntry.jsx:178-180 | Splitting on `:` and joining with `:` gives the text back. |
| DataEntry.OptionsSplitBack | src/components/DataEntry.jsx:178-187 | Each option's value splits back into its provider and its model. |
| DataEntry.OnlyDefaultProviderUnrouted | src/components/DataEntry.jsx:184-187 | Of the four providers offered, the generation endpoint routes all but `hf`, which is the default. |
| DataEntry.EntryForm.constructor | src/components/DataEntry.jsx:4-21 | The form starts empty, with the first option (`hf`, FLUX.1) and `Male` selected, and generation assumed enabled. |
| DataEntry.EntryForm.Choose | src/components/DataEntry.jsx:179-182 | Choosing an option stores the provider and model it packs, and changes nothing else. |
| DataEntry.EntryForm.Generate | src/components/DataEntry.jsx:23-70 | An empty prompt sends nothing and changes nothing. Otherwise the form ends idle. A 403 disables generation with the fixed message. Another non-ok status shows the reply's error, or the default when that is falsy. A throw shows its message. Only a fetched image replaces the image and its blob, so a failure keeps the previous blob. |
| DataEntry.EntryForm.Submit | src/components/DataEntry.jsx:72-99 | It hands an observation on exactly when the typed prompt is non-empty and at most 500 characters long and a blob is held. The observation carries the stripped prompt and notes and the current selections. Then prompt, notes, image and error are cleared, and provider, model and gender are kept. A rejected submit changes nothing. |
| AdminPanel.IsOn | src/components/AdminPanel.jsx:97 | The switch reads "on" only when some row has the `GENERATION_ENABLED` key with the text `true`. Without such a row it reads "off". |
| AdminPanel.ToggleValue | src/components/AdminPanel.jsx:97-98 | The switch writes `false` exactly when it reads "on", and `true` otherwise, including when the row is absent. |
| AdminPanel.IsOnIffStoredTrue | src/components/AdminPanel.jsx:114-121 | The switch shows "on" exactly when the `GENERATION_ENABLED` row holds the text `true`. |
| AdminPanel.ToggleFlips | src/components/AdminPanel.jsx:96-109 | The written value goes through the endpoint's upsert and the listing is reloaded; the switch then shows the opposite state. |
| AdminPanel.FindIgnoresOrder | src/components/AdminPanel.jsx:97 | With unique keys, `find` on the newest-first listing gives the same row as on the table. |
| AdminPanel.Masked | src/components/AdminPanel.jsx:179 | Every key containing `_KEY` or `_TOKEN`, as the usual credential names do, is masked. |
| AdminPanel.Displayed | src/components/AdminPanel.jsx:179 | A masked key's value is shown as the mask, and any other key's value is shown as it is. |
| AdminPanel.MaskedByOccurrence | src/components/AdminPanel.jsx:179 | A key is masked exactly when `KEY` or `TOKEN` occurs in it at some offset, or it is `ADMIN_PASSCODE`. |
| AdminPanel.SuggestedKeysHidden | src/components/AdminPanel.jsx:130-179 | The four credential names the panel suggests are masked. |
| AdminPanel.HiddenBySuffix | src/components/AdminPanel.jsx:179 | A key ending in `KEY` or `TOKEN` is masked. |
| AdminPanel.SwitchValueShown | src/components/AdminPanel.jsx:179 | The `GENERATION_ENABLED` value is not masked. |
| AdminPanel.RequestsPassBodyChecks | src/components/AdminPanel.jsx:35-70 | Every save the form sends passes the endpoint's key/value check; the form is stricter and also refuses an empty value. A delete of a non-empty key names that key and no id. |
| AdminPanel.Panel.constructor | src/components/AdminPanel.jsx:5-8 | The panel starts loading, with no rows and empty fields. |
| AdminPanel.Panel.FetchConfigs | src/components/AdminPanel.jsx:10-27 | An ok reply replaces the listing (null reads as empty); anything else keeps it. Loading ends either way. |
| AdminPanel.Panel.SaveConfig | src/components/AdminPanel.jsx:33-58 | An empty key or value sends nothing and changes nothing. Success clears both fields and reloads. A failure keeps fields and listing and gives the alert text. |
| AdminPanel.Panel.Delete | src/components/AdminPanel.jsx:60-82 | Without confirmation nothing is sent. Otherwise it deletes by key; success reloads, and a failure gives the alert text. |
| AdminPanel.Panel.Toggle | src/components/AdminPanel.jsx:96-113 | It posts the opposite of the state shown. Unless the request throws, it reloads whatever the status. |
| Js.IncludesAt | src/components/AdminPanel.jsx:179 | An occurrence at a known offset makes `includes` true. |
| Js.IncludesWitness | src/components/AdminPanel.jsx:179 | `includes` is true only through an occurrence at some offset. |
| Js.NotIncludedWithoutChar | src/components/AdminPanel.jsx:179 | A block with a character absent from the text is not included. |
| Js.JoinSplitsPart | src/components/Dashboard.jsx:45 | A part containing the separator joins to the same text as its two halves. |

## Left out

- Network I/O is not modelled: the calls to OpenAI, Replicate, Hugging
  Face, the Supabase store and the application's own endpoints. Their
  replies, and whether they threw, are parameters. The one-second sleeps
  between Replicate polls are dropped.
- GenerateApi.Handle: the poll loop is given a finite list of replies. When
  the list runs out before a terminal status, the outcome is
  `StillPolling`. The source would keep polling, since it has no bound.
- GenerateApi.Handle: an error the handler would throw while reading a reply
  gives 500 with the body `TypeFault`. Examples are `data.data[0]` on an
  empty list, a prediction without `urls.get`, and a null `output`. The
  engine's message text is not modelled. An OpenAI item without `url` is
  not modelled either.
- ConfigApi.ConfigTable.Handle: `createClient` is treated as never failing.
  A JSON `null` value, which the source accepts because it is not
  `undefined`, is not modelled; values are strings or undefined.
- GenerateApi.Handle: a POST without a body is not modelled. Reading its
  fields at api/generate.js:8 throws before the `try`, so the platform
  answers, not the handler. The model can only say the fields are absent,
  which gives 400.
- VerifyPasscode.Verify: a POST without a body is not modelled. Reading
  `passcode` at api/verify-passcode.js:8 throws before the `try`, so the
  platform answers. The model can only say the passcode is absent, which
  gives 400.
- ConfigApi.ConfigTable.Handle: a POST or DELETE without a body is not
  modelled. Reading its fields at api/config.js:47 and 63 throws inside the
  `try`, so the source answers 500 with the engine's message. The model can
  only say the fields are absent, which gives 400.
- ConfigApi.ConfigTable: `id` and `created_at` come from two counters that
  the table increments, standing in for the store's sequence and clock.
  The GET listing is the reverse of insertion order; that equals
  `created_at` descending because the clock only grows.
- VerifyPasscode.Verify: the outer `catch` (500 "Internal server error")
  would only be reached if `createClient` threw, which is not modelled.
- Dashboard: the percentages (`toFixed`), the locale date formatting and
  the download are left out. The date formatting is a parameter `fmt`. The
  download is DOM work: the Blob, the link and the file name taken from the
  clock.
- Dashboard.GenderLabel: the labels are looked up on a plain object, so a
  gender value naming an inherited `Object.prototype` member (`toString`,
  `valueOf`, `hasOwnProperty`, `constructor`, `__proto__`) finds that member
  and the export writes its text. The model shows such a value as it is.
- Dashboard.Tally: JavaScript object keys such as `__proto__` are plain map
  keys. The order of `Object.keys` is not modelled.
- DataEntry.EntryForm.Submit: `length` counts UTF-16 code units; the model
  counts characters. `onAddEntry` is not modelled; the handed observation
  is returned instead.
- DataEntry.EntryForm.Choose: it requires the value to be one of the four
  option values. A `select` can only produce those.
- DataEntry.EntryForm.Generate: the image fetch is a parameter. With the
  default `hf` provider the endpoint answers 200 with address `''`, and the
  form fetches that address; what it receives is whatever that parameter
  says. The intermediate `isGenerating` state and the alerts are not
  observable in the model. The `403` branch is never reached with the
  handler as shown, which answers only 200, 400, 405, 500 and 501.
- AdminPanel.Panel: `confirm` is the parameter `confirmed`. The passcode
  is the value the panel was opened with. The overlapping async handlers
  are modelled as if each ran to completion on its own.
- The generation switch writes `GENERATION_ENABLED`, but no endpoint in
  this model reads it: the generation handler has no such check.
- src/App.jsx, src/components/WelcomeScreen.jsx and
  src/components/Gallery.jsx are not part of this model. They hold the
  realtime subscription, storage uploads and rendering.

## Findings

| source | as written | input that shows it | evidently intended | confidence | as-written member | corrected member |
|---|---|---|---|---|---|---|
| src/components/Dashboard.jsx:41-45 | The date column is `toLocaleString('it-IT')`, unquoted, and the fields are joined by commas. | An entry created at 17/10/2026 14:30 gives the date text `17/10/2026, 14:30:00`. Its comma splits the row into 7 fields under 6 headers. | Every data field is quoted, as the prompt and notes already are. Each row then reads back as the entry's six values. | high, not executed | Dashboard.DateCommaSplitsRow | Dashboard.CsvRoundTrip |
