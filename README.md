# gyro: AWS IAM access-key inventory and rotation, in Dafny

This project models the core of `gyro`, a command-line tool that lists the
IAM users of an AWS account, reports each user's access keys (age, status,
last use), flags keys older than a staleness threshold, and rotates keys:
it deactivates expired keys, deletes a user's oldest key and creates a new
one, asking the operator first unless confirmation is skipped. It also
models the small dotenv helper that merges Kubernetes secret manifests and
writes them out as a `.env` file.

Modules, one per source file:

- `Users` (pkg/providers/aws/users.go): the paginated `ListUsers` loop,
  `GetUser` with its "missing user is not an error" rule, and the older
  per-user `ListAccessKeys`.
- `Keys` (pkg/providers/aws/keys.go):
  - classifying one key against the age policy (`getAccessKeyDetails`);
  - listing a user's keys with the expired-only filter;
  - the aggregator `GetUserAccessKey`, which fetches every user's keys and
    sorts the records by user name (an in-place insertion sort on an
    `array`, proved sorted and a permutation);
  - `RotateAccessKeys`, a `class IamClient` whose `calls` field records
    every mutating IAM call in order. Its methods are proved equal to the
    functions `Rotation` (a fold, `RunItems`, over the items) and
    `RotateUser`, which is built, as the code runs, from the deactivation
    pass `Deactivations` and the delete-and-create step `Replacement`. The
    lemma `RotateUserClosed` gives one user's rotation in closed form.
- `Helper` (pkg/providers/aws/helper.go): the second aggregator, the one
  the `get-keys` command calls. It is related to the keys.go aggregator by
  lemmas.
- `Parser` (pkg/utils/parser.go): merging manifests, reading an existing
  `.env` file, and writing one. It proves a round trip: a written file
  reads back to the variables it was written from.
- `Output` (pkg/utils/output.go): `DisplayData`'s dispatch on the output
  format, and `processTableData`'s flattening of records into table rows.
- `KeysCommand` (cmd/keys.go): the command's options, its flag validator
  and the inputs it hands to the aggregator.
- `Common`, `Strings`, `Wrappers`: shared data (the SDK shapes the core
  reads), Go's string order and `strings.Trim`/`TrimSpace`, and
  `Option`/`Result`.

The AWS service is a value, `Common.Directory`. It holds the sequence of
`ListUsers` responses, in the order they are returned, and functions that
answer `GetUser`, `ListAccessKeys` and `GetAccessKeyLastUsed`.
The mutating calls of rotation are recorded on `Keys.IamClient`, whose
`deleteSucceeds` and `createAccessKey` say how the service answers them.
The clock and the time-zone database are `Common.Clock`: `now`, in seconds,
and whether a zone name loads. The operator's answers to prompts are a
sequence of strings. An exhausted input reads as "", as `fmt.Scanln` leaves
the response empty at end of input.

Three behaviours of the code worth knowing:

- A failed per-user fetch in the aggregators is logged and that user is
  dropped; the run does not fail.
- Declining the deletion of the oldest key still leaves the deactivations
  made before that prompt (`Keys.DeclinedDeletionIssuesNothing` states
  exactly what is left).
- helper.go's comment says descending, but its comparator sorts ascending
  by user name, as does the model.

users.go and keys.go both declare `AccessKeyData`, `UserAccessKeyData` and
a `ListAccessKeys` method in package `iam`. The older users.go forms are
modelled separately as `Users.LegacyAccessKeyData` and
`Users.ListAccessKeys`.

## Model

| member | source | states |
|---|---|---|
| Users.Paginate | pkg/providers/aws/users.go:60-75 | a listing sends at least one request and never more than there are responses left |
| Users.ListUsers | pkg/providers/aws/users.go:53-78 | the loop returns exactly the listing `Paginate` describes: the users of the pages read, or the first error, and the requests it sent |
| Users.PaginateReads | pkg/providers/aws/users.go:60-75 | every response before the last one read was a successful truncated page under the default limit of 50; the last one read failed, was not truncated, or the limit is not 50 |
| Users.PaginateResult | pkg/providers/aws/users.go:61-67 | the listing fails exactly when the last response read is an error, and then carries that error; otherwise it returns all users of the pages read, in page order |
| Users.PaginateRequests | pkg/providers/aws/users.go:56-71 | the first request carries the limit and no marker; every request carries the limit; each later request carries the marker of the previous response when it had one, otherwise the previous marker |
| Users.ExplicitLimitReadsOnePage | pkg/providers/aws/users.go:72-74 | any limit other than 50 reads exactly one response |
| Users.GetUser | pkg/providers/aws/users.go:80-100 | a user is returned exactly when the lookup succeeds; an error exactly when it fails with anything other than NoSuchEntity; a missing user gives neither |
| Users.LegacyKey | pkg/providers/aws/users.go:124-139 | a key never used keeps only its id and service "n/a"; a used key has its creation date, status, last-use time and service |
| Users.ListAccessKeys | pkg/providers/aws/users.go:102-149 | the record names the user and holds one entry per listed key, built by `LegacyKey`, with no error |
| Users.LegacyKeys | pkg/providers/aws/users.go:114-141 | no contract of its own: one record per listed key in listing order, built by `Users.LegacyKey` from its last-use answer; stated by `Users.LegacyKeysOnePerKey` |
| Users.LegacyKeysOnePerKey | pkg/providers/aws/users.go:114-141 | one entry per listed key, in listing order, entry i built from key i |
| Keys.KeyDetails | pkg/providers/aws/keys.go:97-119 | id, creation date and status are copied; expired iff older than `stale` days; matches iff the filter is off or the key is expired; "n/a" and no time when never used |
| Keys.GetAccessKeyDetails | pkg/providers/aws/keys.go:87-122 | fails, with its own error, exactly when the last-use lookup fails; otherwise the key classified by `KeyDetails` |
| Keys.ExpiredOnlyChangesOnlyMatch | pkg/providers/aws/keys.go:110-119 | the expired-only filter changes only `MatchesCriteria`, setting it to `IsExpired`; a key expired now is expired later |
| Keys.ListAccessKeysSpec | pkg/providers/aws/keys.go:39-84 | no contract of its own: the record `ListAccessKeys` returns (unknown zone, failed listing, no keys, no key matching the filter, or the user's fetched keys); its cases are stated by `Keys.ListAccessKeysOutcome` |
| Keys.ListAccessKeys | pkg/providers/aws/keys.go:39-84 | the loop returns what `ListAccessKeysSpec` describes (its cases are stated by `ListAccessKeysOutcome`) |
| Keys.FetchedKeys | pkg/providers/aws/keys.go:64-74 | no contract of its own: the per-key loop, keeping in listing order the classified keys whose lookup answers and dropping those whose lookup fails; stated by `Keys.FetchedKeysMembers`, `Keys.FetchedKeysComplete` and `Keys.FetchedKeysAppend` |
| Keys.FetchedKeysAppend | pkg/providers/aws/keys.go:64-74 | listing order is kept: the keys of two runs of metadata are those of the first followed by those of the second |
| Keys.FetchedKeysMembers | pkg/providers/aws/keys.go:64-74 | a key is reported iff some listed key's last-use lookup answers and the key is its classification |
| Keys.FetchedKeysComplete | pkg/providers/aws/keys.go:64-74 | when every lookup answers, exactly one key per listed key, in order |
| Keys.MarkExpiredOnly | pkg/providers/aws/keys.go:115-119 | same length; each key with `MatchesCriteria` replaced by `IsExpired` |
| Keys.FetchedKeysExpiredOnly | pkg/providers/aws/keys.go:64-74 | the keys fetched under the expired-only filter are the unfiltered keys with `MatchesCriteria` set to `IsExpired` |
| Keys.ListAccessKeysOutcome | pkg/providers/aws/keys.go:44-83 | fails iff the zone does not load or the listing fails; no keys, or the filter with no expired key, gives the empty record; otherwise the user's name and every fetched key |
| Keys.ExpiredOnlyRefinesUnfiltered | pkg/providers/aws/keys.go:76-83 | the filter fails exactly when the plain listing fails; a non-empty filtered record is the plain record marked by `MarkExpiredOnly` and holds an expired key |
| Keys.SortByUserName | pkg/providers/aws/keys.go:274-276 | the records end up ascending by user name and are a permutation of the input |
| Keys.InsertIntoSorted | pkg/providers/aws/keys.go:274-276 | one insertion step extends the sorted prefix by one element and permutes the array |
| Keys.Swap | pkg/providers/aws/keys.go:274-276 | exchanges two elements; the contents stay a permutation |
| Keys.WorkingSet | pkg/providers/aws/keys.go:223-230 | a named user is fetched alone, without any listing request |
| Keys.GetUserAccessKey | pkg/providers/aws/keys.go:219-280 | a failed listing is the failure, with nothing logged; otherwise the result is sorted by name and a permutation of the records kept by the fan-out, and the per-user errors are logged |
| Keys.Collect | pkg/providers/aws/keys.go:241-263 | no contract of its own: the records and errors the keys.go fan-out leaves, in user order; what it keeps and logs is stated by `Keys.CollectMembers` |
| Keys.FetchAll | pkg/providers/aws/keys.go:241-263 | the fan-out loop keeps and logs exactly what `Keys.Collect` describes |
| Keys.CollectMembers | pkg/providers/aws/keys.go:241-263 | a record is kept iff some user's fetch returned it with keys; an error is logged iff some user's fetch failed with it; every kept record names a listed user |
| Keys.ExpiredOnlyScenario | pkg/providers/aws/keys.go:219-280 | with a 90-day threshold and the expired-only filter, of a user with a 120-day-old key and one with a 10-day-old key only the first is reported, with its key flagged expired |
| Keys.DeactivateAll | pkg/providers/aws/keys.go:147-158 | one deactivation call per key, in order, each setting the key inactive |
| Keys.Deactivations | pkg/providers/aws/keys.go:135-161 | no contract of its own: the deactivation pass, one prompt per expired active key in key order, a deactivation for each "y" (for every such key without confirmation); stated by `Keys.DeactivationsUnasked`, `Keys.DeactivationsAsked` and `Keys.DeactivationPhase` |
| Keys.DeactivationsUnasked | pkg/providers/aws/keys.go:135-161 | without confirmation every expired active key is deactivated and no answer is read |
| Keys.DeactivationsAsked | pkg/providers/aws/keys.go:135-161 | with confirmation one answer is read per expired active key, and exactly the keys answered "y" are deactivated |
| Keys.DeactivationPhase | pkg/providers/aws/keys.go:135-161 | the deactivation loop in closed form: the calls and the answers left |
| Keys.OldestIndex | pkg/providers/aws/keys.go:165-170 | the index of a key with the earliest creation date, and no earlier key is as old |
| Keys.OldestUnique | pkg/providers/aws/keys.go:165-170 | that index is unique, so the loop's choice is determined |
| Keys.FindOldest | pkg/providers/aws/keys.go:165-170 | the oldest-key loop finds the first key with the earliest creation date |
| Keys.Replacement | pkg/providers/aws/keys.go:163-213 | no contract of its own: the delete-and-create step on the answers left after the deactivation prompts; stated by `Keys.ReplacementAfterPrompts`, `Keys.RotateUserDeclined`, `Keys.RotateUserDeleteFailed` and `Keys.RotateUserCreates` |
| Keys.RotateUser | pkg/providers/aws/keys.go:134-213 | rotating one user issues at most one new key (the calls themselves are stated by `Keys.RotateUserDeclined`, `Keys.RotateUserDeleteFailed` and `Keys.RotateUserCreates`) |
| Keys.Rotation | pkg/providers/aws/keys.go:125-217 | no contract of its own: the rotation loop over all items, each item reading the answers the previous ones left; its properties are the `Keys.Rotation…` lemmas below |
| Keys.RotateUserClosed | pkg/providers/aws/keys.go:134-213 | rotating one user in closed form: the confirmed due keys are deactivated in key order; with two or more keys the oldest is deleted on a "y" (or without confirmation); a create follows unless that prompt was declined or the delete failed; one answer is read per prompt |
| Keys.ReplacementAfterPrompts | pkg/providers/aws/keys.go:163-213 | the delete-and-create step, reading the answers the deactivation prompts left, in closed form |
| Keys.RotationSnoc | pkg/providers/aws/keys.go:125-132 | one more item extends a rotation: it is rotated with the answers the earlier items left, and its calls and results are appended |
| Keys.FirstItemSplit | pkg/providers/aws/keys.go:127-213 | the same split for one access-key item of the rotation loop |
| Keys.RotateUserDeclined | pkg/providers/aws/keys.go:172-179 | a declined deletion prompt leaves only the confirmed deactivations: no delete, no create, no result |
| Keys.RotateUserDeleteFailed | pkg/providers/aws/keys.go:187-191 | a failed delete ends the user's rotation after the delete: no create, no result |
| Keys.RotateUserCreates | pkg/providers/aws/keys.go:195-213 | with fewer than two keys, or after a successful delete, a create follows and its key is reported when issued |
| Keys.IamClient.constructor | pkg/providers/aws/keys.go:125-126 | a client starts with no calls recorded |
| Keys.IamClient.RotateAccessKeys | pkg/providers/aws/keys.go:125-217 | the calls appended, the results and the answers left are exactly those of `Rotation` over the items |
| Keys.IamClient.RotateItem | pkg/providers/aws/keys.go:127-132 | an item that is not an access-key record is skipped with no call; otherwise the user is rotated |
| Keys.IamClient.RotateUserKeys | pkg/providers/aws/keys.go:134-213 | the calls are the deactivation pass followed by the delete-and-create step; results and answers left are those of that step |
| Keys.IamClient.ReplaceOldest | pkg/providers/aws/keys.go:163-213 | finds the oldest key, asks, deletes, creates: the calls, results and answers left of `Replacement` |
| Keys.IamClient.DeactivateExpired | pkg/providers/aws/keys.go:135-161 | the calls and answers left of the deactivation pass `Deactivations` |
| Keys.DueKeysMembers | pkg/providers/aws/keys.go:136 | a key is offered for deactivation iff it is one of the user's keys, expired and active |
| Keys.ConfirmedMembers | pkg/providers/aws/keys.go:142-147 | the keys deactivated after prompting are among those offered |
| Keys.DeclinedDeletionIssuesNothing | pkg/providers/aws/keys.go:172-179 | after a declined deletion the user gets no result and only deactivation calls; with no expired active key, no call at all |
| Keys.FailedDeletionIssuesNothing | pkg/providers/aws/keys.go:187-191 | after a failed delete no key is created and the delete is the user's last call |
| Keys.SingleKeyRotation | pkg/providers/aws/keys.go:163-213 | a user with one key that is not due gets exactly one create, no prompt, and one result iff the create succeeds |
| Keys.RotateUserTouchesOnlyDueAndOldest | pkg/providers/aws/keys.go:135-191 | every call names the user; each deactivation targets an expired active key of the user; a delete targets its oldest key, and only with two or more keys |
| Keys.IssuedAppend | pkg/providers/aws/keys.go:209-213 | the results implied by two runs of calls are those of the first followed by those of the second |
| Keys.IssuedDeactivations | pkg/providers/aws/keys.go:147-158 | deactivations yield no result |
| Keys.UserResultsAreCreatedKeys | pkg/providers/aws/keys.go:195-213 | one user's results are exactly one per create the service honours |
| Keys.RotationResultsAreCreatedKeys | pkg/providers/aws/keys.go:125-217 | the results of a whole rotation are exactly one per honoured create, in call order |
| Keys.RotationIssuesAtMostOnePerKeyItem | pkg/providers/aws/keys.go:127-213 | a whole rotation issues at most one new key per access-key record |
| Keys.RotationSkipsOtherItems | pkg/providers/aws/keys.go:128-132 | items that are not access-key records change nothing: rotating all items equals rotating only the access-key records |
| Keys.RotationCallsNameListedUsers | pkg/providers/aws/keys.go:127-214 | every mutating call names a user in `KeyUserNames` of the items, the user names of their access-key records |
| Helper.GetUserAccessKey | pkg/providers/aws/helper.go:21-65 | a failed listing is returned as the error; otherwise the gathered records, sorted ascending by user name and a permutation of what the fan-out kept |
| Helper.Gathered | pkg/providers/aws/helper.go:39-55 | at most one record per user; under the expired-only filter every record holds keys |
| Helper.GatheredMembers | pkg/providers/aws/helper.go:39-55 | a record is kept iff some user's fetch returned it and, under the expired-only filter, it holds keys |
| Helper.GatheredEveryUser | pkg/providers/aws/helper.go:51-53 | without the filter and with no failed fetch, exactly one record per user, in user order, even a record without keys |
| Helper.WithKeysAppend | pkg/providers/aws/helper.go:47-53 | filtering records that hold keys distributes over appending one record |
| Helper.CollectKeepsGatheredWithKeys | pkg/providers/aws/keys.go:253-260 | the keys.go fan-out keeps exactly the helper.go records that hold keys, in the same order |
| Helper.ExpiredOnlyAggregatorsAgree | pkg/providers/aws/helper.go:47-50 | under the expired-only filter both aggregators keep the same records |
| Helper.AllHaveKeys | pkg/providers/aws/helper.go:47-50 | under the expired-only filter every gathered record holds keys |
| Parser.Merged | pkg/utils/parser.go:20-33 | every key of any manifest's `Data` or `StringData` is present; the last manifest's `StringData` values win |
| Parser.CopyEntries | pkg/utils/parser.go:24-29 | copying a map into another gives their union, the copied entries winning |
| Parser.MergeDataFromManifests | pkg/utils/parser.go:20-33 | the loop returns `Merged`: each manifest's `Data`, then its `StringData`, later writes winning |
| Parser.MergedNothing | pkg/utils/parser.go:20-33 | no manifests give no variables |
| Parser.LastDefining | pkg/utils/parser.go:23-30 | the last manifest defining a key, or -1; no later manifest defines it |
| Parser.MergedValue | pkg/utils/parser.go:20-33 | a key is merged iff some manifest defines it, and its value is that of the last such manifest, `StringData` before `Data` |
| Parser.SplitLines | pkg/utils/parser.go:43-45 | no line it yields contains a newline |
| Parser.SplitJoin | pkg/utils/parser.go:43-45 | splitting lines undoes joining them, for lines without newline or trailing carriage return |
| Parser.ParseLine | pkg/utils/parser.go:46-50 | a line is skipped iff it is empty, starts with "#" or has no "=" |
| Parser.ParseLineCases | pkg/utils/parser.go:46-50 | a line is skipped iff it is empty, starts with "#" or has no "="; otherwise its key and value are the space-trimmed text around the first "=" |
| Parser.Absorb | pkg/utils/parser.go:51-54 | every variable already set keeps its value; the only variable a line can add is the key it parses to |
| Parser.ApplyLines | pkg/utils/parser.go:43-57 | no contract of its own: the existing file's lines applied in file order by `Parser.Absorb`; stated by `Parser.CallerWins` and `Parser.FirstDefinitionWins` |
| Parser.FillFromExisting | pkg/utils/parser.go:43-57 | the scanning loop applies the existing lines in file order |
| Parser.CallerWins | pkg/utils/parser.go:51-54 | every variable the caller set keeps its value |
| Parser.FirstDefining | pkg/utils/parser.go:44-56 | the first line setting a key, or the line count when none does |
| Parser.FirstDefinitionWins | pkg/utils/parser.go:44-56 | a key the caller did not set is present after reading iff some line sets it, and then its value is the first such line's value with quotes trimmed |
| Parser.EntryLines | pkg/utils/parser.go:65-70 | one line `key='value'` per key, in the given order |
| Parser.Render | pkg/utils/parser.go:64-70 | the writing loop enumerates every variable once, in some order, and writes one line per variable |
| Parser.GenerateEnvFile | pkg/utils/parser.go:36-79 | the variables written are the caller's completed from the existing file when there is one; the content is one line per variable |
| Parser.WrittenLines | pkg/utils/parser.go:64-70 | the written file has exactly one line per variable, and every variable's line is in it |
| Parser.TrimQuoted | pkg/utils/parser.go:53 | trimming quotes off a single-quoted value gives back the value, when it has no quote at either end |
| Parser.ParseEntryLine | pkg/utils/parser.go:47-50 | a written line parses back to its key and quoted value |
| Parser.RestrictSpec | pkg/utils/parser.go:44-56 | restricting keeps exactly the named variables, with their values |
| Parser.WrittenFileReadsBack | pkg/utils/parser.go:36-79 | reading back a written file, with no variables set, recovers every variable written, for keys and values that can be read back |
| Parser.ReadBackPrefix | pkg/utils/parser.go:44-56 | reading the lines of distinct plain variables yields exactly those variables |
| Parser.ReadBackLine | pkg/utils/parser.go:46-54 | reading one written line adds its variable with its value |
| Strings.LexLessIrreflexive | pkg/providers/aws/keys.go:274-276 | Go's string `<` is irreflexive |
| Strings.LexLessTransitive | pkg/providers/aws/keys.go:274-276 | Go's string `<` is transitive |
| Strings.LexLessTotal | pkg/providers/aws/keys.go:274-276 | any two distinct strings are ordered one way or the other |
| Strings.TrimLeftSpec | pkg/utils/parser.go:53 | `Trim` drops the longest prefix of cut characters |
| Strings.TrimRightSpec | pkg/utils/parser.go:53 | `Trim` drops the longest suffix of cut characters |
| Strings.TrimExact | pkg/utils/parser.go:49-53 | trimming keeps exactly the infix between the first and the last character not in the cut set |
| Strings.IndexOf | pkg/utils/parser.go:47 | the first "=" in the line, or the line's length when there is none |
| Output.ProcessTableData | pkg/utils/output.go:100-134 | the headers are the six column titles, the rows are `TableRows` of the items, and there is no error |
| Output.Row | pkg/utils/output.go:111-127 | no contract of its own: the six cells of one key's row, "n/a" for a key never used; its width is stated by `Output.RowsMatchHeaders` |
| Output.KeyRows | pkg/utils/output.go:110-129 | no contract of its own: one row per key of a user, in key order; stated by `Output.KeyRowsAt` |
| Output.TableRows | pkg/utils/output.go:106-131 | no contract of its own: the rows of all items, item by item and key by key; stated by `Output.TableRowsCount`, `Output.RowAt` and `Output.TableRowsConcat` |
| Output.KeyRowsAt | pkg/utils/output.go:110-129 | one row per key of a user, row j built from key j |
| Output.TableRowsCount | pkg/utils/output.go:106-131 | there is one row per key of the access-key records |
| Output.TableRowsConcat | pkg/utils/output.go:107-131 | rows follow the items: the rows of two runs of items are those of the first followed by those of the second |
| Output.RowAt | pkg/utils/output.go:107-129 | key j of item i is in the row after the rows of the earlier items and keys; its cells are name, id, creation date, status, last use ("n/a" when never used), service |
| Output.RowsMatchHeaders | pkg/utils/output.go:101-128 | every row has one cell per header |
| Output.OnlyKeyItemsMakeRows | pkg/utils/output.go:109 | items that are not access-key records add no rows |
| Output.DisplayData | pkg/utils/output.go:20-45 | nothing for no data; a format error iff there is data and the format is not json, file or table, carrying the format; json output receives the items unchanged; file output receives the path and the items; the table receives the six headers, exactly `TableRows` of the items at the given time (one row per key) and the stale-key warning flag |
| KeysCommand.ConfigureListFlags | cmd/keys.go:54-72 | each flag lands unchanged in its option field |
| KeysCommand.AggregatorInputs | cmd/keys.go:35-42 | the aggregator's limit, zone, user, age and filter are the options' |
| KeysCommand.Validate | cmd/keys.go:84-102 | no error iff the age is at least 1, the format is json, table or text and the zone is not empty; otherwise the first failing check's error, in the order age, format, zone |
| KeysCommand.DefaultsAccepted | cmd/keys.go:77-82 | the declared defaults pass the check, ask for the default limit of 50 and do not filter |
| KeysCommand.AcceptedFormatsRendered | cmd/keys.go:90-94 | of the formats the check accepts only "text" is not rendered by `DisplayData`; "file", which it renders, never passes the check |

## Left out

- Network calls to IAM are inputs: the `Directory` answers and the `IamClient` outcome functions. Client construction (`DeclareConfig`) is not modelled.
- The goroutines and `sync` primitives of both aggregators are a sequential fold in user order. The unsynchronised `append` in helper.go is a data race. The model does not capture the records it can lose or the order the goroutines finish in; the final sort hides that order only up to records with equal names.
- `time.Since(...).Hours() > float64(stale*24)` is compared as whole seconds (`now - created > stale * 86400`). Floating-point rounding is not modelled.
- Go's `int32` quantity and `int` age are unbounded integers. Overflow of `stale*24` is not modelled.
- Time zones only decide whether `time.LoadLocation` succeeds. The conversion of times into a zone and the date layout "2006-01-02 15:04:05" are the `stamp` parameter of `Output`.
- Go's zero `time.Time` is the constructor `Zero`. A last-use time exactly at the zero instant cannot be told apart in Go; the model keeps the two separate.
- JSON printing, the file write, the coloured table (`tableOutput`) and their I/O errors are not modelled. `Output.DisplayData` says which renderer receives what.
- `createAccessKey` is a function of the user name only, so two access-key records for the same user in one run would be answered with the same new key. The service would return two different keys. In the CLI every user appears once, and no lemma depends on the keys being distinct.
- The deactivation outcome logs are not modelled: the source only logs whether each deactivation call succeeded, so every deactivation call is recorded whatever the service answers. The per-user errors that the keys.go aggregator logs are modelled (`Keys.Collect`'s `logged`); the other log lines are not.
- Strings are modelled as sequences of Unicode characters, not as Go's UTF-8 byte strings. `Strings.LexLess`, `Strings.Trim` and `Strings.TrimSpace` work per character. Go's byte-order string comparison agrees with code-point order on valid UTF-8, and the trim cutsets here are ASCII or white space, so the results are the same for valid UTF-8; invalid UTF-8 is not modelled.
- Users.ListUsers: the model assumes the service answers every request the loop makes. This is `Users.Serves`: after a truncated response under the default limit another response follows.
- Users.ListAccessKeys: requires that the listing and every last-use lookup succeed, and that the zone loads. Otherwise the source dereferences a nil result. That path is a crash, not modelled behaviour.
- Parser.GenerateEnvFile: the existing file is an input (`existing`, `None` when absent), and the write is returned as `content` rather than performed. Read, scan and write errors are left out, including the scanner's 64 KiB line limit. The source mutates the caller's map in place; the model returns the completed map `env`.
- Parser.Render: Go's map iteration order is unspecified. The order chosen is the out-parameter `order`, which is only promised to enumerate every key once.
- Parser.WrittenFileReadsBack: holds only for keys without "=", a leading "#", surrounding white space or newlines, and for values without a quote at either end and without newlines (`PlainEntry`). Other variables are not written in a form the reader gives back unchanged.
- `Output.FormatError` stands for the log line of an unknown format; nothing is rendered. Formats are compared exactly, as in the source.
- The `PersistentPreRunE` of the root command, which checks the quantity, is replaced by the `get-keys` command's own check and never runs for it. It is not modelled, and neither is the rest of the command wiring (cmd/list.go, cmd/rotate.go, cmd/users.go, cmd/onepassword.go).
- The 1Password provider, login-profile items (only an `OtherData` tag here), pkg/utils/date.go, pkg/utils/files.go and pkg/providers/aws/utils.go are not part of this model.
