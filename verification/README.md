# hubctl core, modelled in Dafny

hubctl is a command-line tool for administering GitHub organizations and
enterprises. Each command checks its arguments and calls one or two REST
endpoints through Octokit. It then reshapes the JSON it gets back and prints
it as a table, as JSON, or as tab-separated list lines. This project models
the logic between the API call and the printed output:

- `GitHubClient` covers the enterprise licence pagination, the member
  filters, the record built for each licensed user, its role, and the
  mapping of Octokit errors to the client's own errors.
- `Formatter` covers the choice of output stream, table cells (check mark,
  cross, dash, truncation), TSV list lines (clean fields, tab-joined) and
  the dispatch on the format.
- `BaseCommand` covers the `--format` lookup in ARGV, the memoised
  formatter, the option / environment / config fallback for the
  organization and the enterprise, the `--yes` confirmation, and the
  mapping of errors to messages and exit status.
- `Repos` covers the `type` parameter of `list`, the `clone` target
  directory and shell command, and the topic edits and listing of `topics`.
- `Billing` covers the `enterprise billing` summary: grouping usage items
  by product, per-SKU runner breakdowns with their shares, sums, the
  ordering by minutes, and the flattened category/metric/value table.
- `Enterprise` covers the rows printed by `enterprise members` and
  `enterprise owners`, and what `enterprise billing` ends with.
- `Common` holds the shared vocabulary:
  - `Option` and `Result`;
  - `Filter`, `Without` and `Uniq`, the counterparts of Ruby's `select`,
    `-` and `uniq`;
  - string prefixes and suffixes, `Join`/`Split`, and sums.

Ruby's `nil` is `None`. A JSON boolean is an `Option<bool>` that is truthy
only as `Some(true)`. Every string and every array is truthy, empty or not.
Amounts and quantities are `real`. Hash insertion order is a sequence of
entries.

Where the code has one of the bugs listed under "## Findings", the model
keeps two versions: a member named `…AsWritten` that does what the code does,
and a corrected member. The members built on top of them use the corrected
version. Their rows below say "corrected", and "## Left out" names each one
together with what the code as written does instead.

## Model

| member | source | states |
|---|---|---|
| Common.Without | lib/hubctl/repos.rb:204 | Ruby's `a - b`: an order-preserving subsequence holding exactly the elements of `a` not in `b`, each surviving element as many times as it occurs in `a` |
| Common.Uniq | lib/hubctl/repos.rb:205 | Ruby's `uniq`: every element of the input exactly once, in the order of first occurrence |
| GitHubClient.DetermineUserRole | lib/hubctl/github_client.rb:406-418 | the role is 'admin' iff the roles include Owner; 'member' iff Member but not Owner; 'collaborator', 'pending' and 'unknown' likewise, each with every earlier role absent |
| GitHubClient.OwnerDominates | lib/hubctl/github_client.rb:406-418 | an Owner role makes the user 'admin' whatever other roles come before or after it |
| GitHubClient.FilterOwners | lib/hubctl/github_client.rb:387-389 | keeps exactly the users whose enterprise roles include Owner, in their original order and with their multiplicity; users without a roles array are dropped |
| GitHubClient.FilterByRole | lib/hubctl/github_client.rb:373-385 | after case-folding the role, 'admin' or 'owner' keeps the owners, 'member' keeps Members who are not Owners, and any other role keeps every member, always as a subsequence |
| GitHubClient.FilterByRoleIsPointwise | lib/hubctl/github_client.rb:373-385 | the role filter equals a selection by one per-user test, so whether a user is kept depends only on that user |
| GitHubClient.FilterMembersByOptions | lib/hubctl/github_client.rb:361-371 | with no role and no two-factor option every user is kept; with the two-factor option no kept user has two-factor enabled; the result is a subsequence |
| GitHubClient.FilterMembersByOptionsIsPointwise | lib/hubctl/github_client.rb:361-371 | both filters together equal one selection by the conjunction of the role test and the two-factor test |
| GitHubClient.TransformMemberData | lib/hubctl/github_client.rb:391-404 | the record keeps the login; its role is the priority role of the user's roles (none read as empty), so 'admin' iff an Owner and 'unknown' without roles; two_factor_disabled iff two-factor is not truthy; saml_identity is 'configured' iff a SAML name id exists, else 'none'; the email is the first verified email when there is one |
| GitHubClient.TransformAll | lib/hubctl/github_client.rb:220-226 | one record per user, in order |
| GitHubClient.FetchAllEnterpriseUsers | lib/hubctl/github_client.rb:344-359 | requests pages 1, 2, … (at most 50); every page before the last was full (100 users); it stops at the first short page or after page 50; the result concatenates the pages in order; a failing request ends it with that request's error |
| GitHubClient.FetchLengthWhenShortPage | lib/hubctl/github_client.rb:344-359 | after k-1 full pages, 100·(k-1) users have been collected |
| GitHubClient.ExtractErrorMessages | lib/hubctl/github_client.rb:467-469 | no error list yields no messages; otherwise the detail messages in order, with empty ones dropped |
| GitHubClient.UnprocessableMessage | lib/hubctl/github_client.rb:457-461 | "Request failed: " followed by the non-empty detail messages joined by ", ", or by the error's own message when there are none |
| GitHubClient.RateLimitBranchUnreachable | lib/hubctl/github_client.rb:424-439 | as written, TooManyRequests is caught by the Forbidden branch and the rate-limit message is produced for no error at all |
| GitHubClient.HandleApiErrorAsWritten | lib/hubctl/github_client.rb:424-439 | as written: Unauthorized alone becomes an AuthenticationError; NotFound gets its message; Forbidden and TooManyRequests both get the forbidden message; UnprocessableEntity gets the joined details; any other error "GitHub API error: " and its message |
| GitHubClient.HandleApiError | lib/hubctl/github_client.rb:424-465 | Unauthorized, and only it, becomes an AuthenticationError with the fixed text; NotFound, Forbidden, TooManyRequests and UnprocessableEntity each get their own message; any other error becomes "GitHub API error: " and its message |
| GitHubClient.HandleApiErrorAgreesOffRateLimit | lib/hubctl/github_client.rb:424-439 | the corrected handler differs from the written one only for TooManyRequests |
| GitHubClient.FixedMessagesDistinguishClasses | lib/hubctl/github_client.rb:441-455 | the four fixed-message errors are told apart by their outcome |
| GitHubClient.EnterpriseMembers | lib/hubctl/github_client.rb:220-226 | corrected error handler: a failed fetch becomes the corrected handler's error; otherwise the records of exactly the users the options admit, in order |
| GitHubClient.EnterpriseOwners | lib/hubctl/github_client.rb:228-234 | corrected error handler: a failed fetch becomes the corrected handler's error; otherwise record i is the record of the i-th user with the Owner role, in input order, so every record has role 'admin' and there is one per owner |
| Formatter.OutputStream | lib/hubctl/formatter.rb:52-55 | messages go to stderr iff the format is json or list |
| Formatter.TruncateText | lib/hubctl/formatter.rb:135-137 | text within the limit is unchanged; longer text becomes exactly `length` characters: its first `length`-3 characters followed by "..." |
| Formatter.TruncateTextIdempotent | lib/hubctl/formatter.rb:135-137 | truncating an already truncated text changes nothing |
| Formatter.FormatCellValue | lib/hubctl/formatter.rb:93-106 | true is ✓, false is ✗, nil is -, a time is its 'YYYY-MM-DD HH:MM' stamp, and any other value is its text truncated to 50 |
| Formatter.Stamp | lib/hubctl/formatter.rb:101-102 | `'%Y-%m-%d %H:%M'`: for a year below 10000, sixteen characters with '-', '-', ' ' and ':' at positions 4, 7, 10 and 13, digits elsewhere, and fields that read back (Formatter.ParseStamp) as the year, month, day, hour and minute; never a tab, newline or carriage return |
| Formatter.Field | lib/hubctl/formatter.rb:102 | a zero-padded strftime field: only digits, reads back as the number, at least the width, and exactly the width when the number fits in it |
| Common.NatToStringValue | lib/hubctl/formatter.rb:102 | the decimal digits of a number read back as that number |
| Formatter.CellValue | lib/hubctl/formatter.rb:63 | corrected: a header found as a symbol key reads that key's value, false included; a header with no symbol key reads the string key |
| Formatter.CellValueAsWritten | lib/hubctl/formatter.rb:63 | as written: a truthy symbol-key value is used; otherwise the string key is read, so a false cell can only come from a string key and a false symbol-key value is lost |
| Formatter.FalseCellShownAsDash | lib/hubctl/formatter.rb:63 | as written, a false value under a header is shown as '-'; corrected, it is shown as ✗ |
| Formatter.EmptyHeadersIndexNothing | lib/hubctl/formatter.rb:62-63 | an array of an empty hash and nil, with no headers given, is a table of two empty rows, not an error |
| Formatter.CellValueAgreesOnTruthy | lib/hubctl/formatter.rb:63 | for truthy values the written and corrected lookups agree |
| Formatter.KeyNames | lib/hubctl/formatter.rb:62 | the default headers are the first hash's keys as strings, in order |
| Formatter.HashRow | lib/hubctl/formatter.rb:63 | corrected lookup: one cell per header, in header order, each the formatted value of the corrected lookup |
| Formatter.OutputTable | lib/hubctl/formatter.rb:57-79 | empty data prints the no-data line; an array of hashes gives one row per item under the given or derived headers (rows from the corrected lookup), and a later non-hash item raises iff there is at least one header (with none, no item is indexed and each row is empty); a hash gives Key/Value rows; an array of arrays keeps the given headers and formats each cell, a later hash item giving one cell per `[key, value]` pair, and raises iff some later item is neither array nor hash; an array of other values is inspected |
| Formatter.ReplaceBreakers | lib/hubctl/formatter.rb:131 | every tab, newline and carriage return becomes a space and nothing else changes |
| Formatter.StripLeft | lib/hubctl/formatter.rb:131 | removes exactly the maximal leading run of whitespace |
| Formatter.StripRight | lib/hubctl/formatter.rb:131 | removes exactly the maximal trailing run of whitespace |
| Formatter.Strip | lib/hubctl/formatter.rb:131 | the result is a contiguous piece of the input that neither starts nor ends with whitespace |
| Formatter.FormatListValue | lib/hubctl/formatter.rb:119-133 | true/false become 'true'/'false', nil becomes '-', a time becomes its stamp, and text becomes the stripped text after each tab and line break became a space, so a field with no tab or line break and no surrounding whitespace |
| Formatter.FormatListValueIdempotent | lib/hubctl/formatter.rb:119-133 | cleaning a field twice is cleaning it once |
| Formatter.StripClean | lib/hubctl/formatter.rb:131 | stripping text with no surrounding whitespace changes nothing |
| Formatter.ListFields | lib/hubctl/formatter.rb:113 | one field per hash value, in insertion order |
| Formatter.FieldsHaveNoTab | lib/hubctl/formatter.rb:113-131 | no field of a list line contains a tab |
| Formatter.FormatListItem | lib/hubctl/formatter.rb:108-117 | a hash becomes its fields joined by tabs, and splitting the line at tabs gives the fields back; any other item is shown as it is |
| Formatter.OutputList | lib/hubctl/formatter.rb:81-91 | empty data prints the no-data line; an array prints one line per item, in order; a hash prints one line |
| Formatter.Output | lib/hubctl/formatter.rb:13-24 | json renders JSON, table renders the table, list renders list lines, and any other format inspects the data |
| Formatter.EmptyDataNotice | lib/hubctl/formatter.rb:57-58 | table and list print the same single notice for empty data |
| BaseCommand.FirstPrefixed | lib/hubctl/base_command.rb:24-27 | finds the first argument starting with "--format=", or reports that there is none |
| BaseCommand.AfterFirstEqualsOfFormatArg | lib/hubctl/base_command.rb:25-26 | splitting a "--format=…" argument at its first '=' gives everything after the prefix, later '=' signs included |
| BaseCommand.ResolveFormat | lib/hubctl/base_command.rb:17-29 | the word after the first bare "--format" wins (the option, or 'table', when it is last); otherwise the first "--format=" value; otherwise the option, or 'table' |
| BaseCommand.TrailingFlagIgnoresEqualsForm | lib/hubctl/base_command.rb:20-29 | a trailing bare "--format" shadows every "--format=" argument and leaves the option in force |
| BaseCommand.GetFormatter | lib/hubctl/base_command.rb:17-35 | the first call builds a formatter from the resolved format with colour unless --no-color, and later calls return it unchanged |
| BaseCommand.FormatterIsMemoised | lib/hubctl/base_command.rb:17-35 | once a formatter is built, ARGV and options no longer affect it |
| BaseCommand.FirstPresent | lib/hubctl/base_command.rb:86-88 | the option wins, then the environment, then the stored config |
| BaseCommand.RequireOrg | lib/hubctl/base_command.rb:86-96 | succeeds iff some source names an organization, with the first source's value; otherwise exit 1 with the error and the hint |
| BaseCommand.RequireEnterprise | lib/hubctl/base_command.rb:98-108 | the same chain and outcomes for the enterprise |
| BaseCommand.ConfirmAction | lib/hubctl/base_command.rb:81-84 | --yes proceeds without asking; otherwise the user is asked and the answer decides |
| BaseCommand.HandleError | lib/hubctl/base_command.rb:66-79 | every error exits with status 1 after an error line: a client error's own message, or "Unexpected error: " and the message; an authentication error prints exactly two lines, the second the 'hubctl config init' hint, and any other error exactly one |
| BaseCommand.HandleErrorKeepsMessage | lib/hubctl/base_command.rb:66-79 | the error line always ends with the error's own message |
| Repos.TypeParam | lib/hubctl/repos.rb:21 | no type filter is sent iff the type is 'all'; otherwise the type is passed through |
| Repos.EditTopics | lib/hubctl/repos.rb:202-205 | the new topics have no duplicates; a topic is present iff it was current or added and is not removed; topics keep the order of their first appearance in current-then-added |
| Repos.NewTopics | lib/hubctl/repos.rb:199-205 | --set replaces the topics verbatim; otherwise the add/remove edit applies |
| Repos.NewTopicsIdempotent | lib/hubctl/repos.rb:199-205 | applying the same edit twice gives the same topics as applying it once |
| Repos.RemoveWinsOverAdd | lib/hubctl/repos.rb:203-204 | a topic that is both added and removed ends up absent |
| Repos.NumberedTopics | lib/hubctl/repos.rb:225 | the listing numbers the topics from 1 in order |
| Repos.Topics | lib/hubctl/repos.rb:190-227 | the topics are replaced iff an add, remove or set option is given, and then with the new topics; otherwise an empty topic list gives the no-topics notice, and a non-empty one gives rows whose i-th row is (i+1, i-th topic) |
| Repos.StripTrailingSlashes | lib/hubctl/repos.rb:143 | removes exactly the trailing slashes |
| Repos.AfterLastSlash | lib/hubctl/repos.rb:143 | the maximal slash-free suffix |
| Repos.Basename | lib/hubctl/repos.rb:143 | the basename of an empty path is empty, and any other basename is "/" or has no slash |
| Repos.BasenameDropsGitSuffix | lib/hubctl/repos.rb:143 | the basename of "owner/name.git" is the name |
| Repos.BasenameOfRepoName | lib/hubctl/repos.rb:143 | the basename of "owner/name" is the name, less a ".git" suffix when a longer name carries one |
| Repos.TargetPath | lib/hubctl/repos.rb:143 | --path wins; otherwise the basename of the repository without ".git" |
| Repos.CloneCommand | lib/hubctl/repos.rb:145-148 | the command starts "git clone " and ends with the clone URL, followed by the path only when --path was given |
| Repos.CloneHeadIsJoin | lib/hubctl/repos.rb:145-146 | the words "git clone", with "--depth" and its value when a depth is given, joined by spaces are the start of the command line |
| Repos.CloneCommandIsJoin | lib/hubctl/repos.rb:145-148 | the command is its words joined by spaces, --depth and its value included when given |
| Repos.CloneCommandWords | lib/hubctl/repos.rb:145-148 | for a URL and path without spaces, splitting the command at spaces recovers exactly its words |
| Billing.SkuList | lib/hubctl/enterprise.rb:330 | one SKU per item, 'Unknown' for a missing one |
| Billing.AddUsage | lib/hubctl/enterprise.rb:329-334 | an item with a known SKU leaves the keys unchanged; a new SKU is appended at the end |
| Billing.GroupBySku | lib/hubctl/enterprise.rb:328-334 | one entry per distinct SKU, in the order of first appearance |
| Billing.GroupBySkuSums | lib/hubctl/enterprise.rb:328-334 | each SKU's minutes and cost are the sums over exactly the items with that SKU |
| Billing.GroupBySkuTotals | lib/hubctl/enterprise.rb:323-334 | the breakdown's minutes and costs add up to the totals over all minute items |
| Billing.Percentage | lib/hubctl/enterprise.rb:338 | with a positive total the share times the total is the minutes times 100, and a share of part of the total lies between 0 and 100; with no minutes in total it is 0 |
| Billing.WithShares | lib/hubctl/enterprise.rb:337-341 | each entry keeps its SKU, minutes and cost and gets the percentage of its minutes in the total |
| Billing.PercentageAsWritten | lib/hubctl/enterprise.rb:338 | as written with whole-number minutes: always a multiple of 100, and 0 for any runner type that used less than every minute |
| Billing.SharesSumToHundred | lib/hubctl/enterprise.rb:323-341 | before rounding, the shares of all runner types add up to 100 whenever any minutes were used |
| Billing.ShareAsWrittenIsAllOrNothing | lib/hubctl/enterprise.rb:338 | with whole-number minutes, as written a share is 0 or 100, and 100 only for a runner type that used every minute |
| Billing.IntegerSharesCounterexample | lib/hubctl/enterprise.rb:338 | 30 and 70 of 100 minutes both show 0% as written, and 30% and 70% as intended |
| Billing.ProductItemsNonEmpty | lib/hubctl/enterprise.rb:311-313 | a product's selection is non-empty iff some item has that product |
| Billing.ActionsOf | lib/hubctl/enterprise.rb:322-348 | total minutes sum the Minutes items and total cost sums all Actions items; breakdown entry i is the i-th distinct SKU of the Minutes items, with the minutes and cost summed over exactly that SKU's items and its share of the total minutes; with any minutes the shares add up to 100 |
| Billing.BreakdownEntries | lib/hubctl/enterprise.rb:328-341 | after the shares are added, entry i carries the i-th distinct SKU, the sums over that SKU's items and its percentage of the total |
| Billing.PackagesOf | lib/hubctl/enterprise.rb:351-363 | storage and transfer sum the quantities of items whose SKU mentions 'storage' or 'transfer'; the cost sums all Packages items |
| Billing.CopilotOf | lib/hubctl/enterprise.rb:366-374 | user-months and cost are the sums over the Copilot items |
| Billing.Summarize | lib/hubctl/enterprise.rb:310-374 | the total cost sums every item; each product section is present iff that product has items, and is built from exactly those items |
| Billing.AbsentProductCostsNothing | lib/hubctl/enterprise.rb:311-318 | a product without items contributes nothing to the total cost |
| Billing.TotalCostPartition | lib/hubctl/enterprise.rb:311-374 | the total cost equals the three sections' costs plus the cost of items of any other product |
| Billing.InsertByMinutes | lib/hubctl/enterprise.rb:581 | inserting into a list sorted by descending minutes keeps it sorted and adds exactly that entry |
| Billing.SortByMinutesDesc | lib/hubctl/enterprise.rb:581 | the breakdown sorted by descending minutes is a permutation of it |
| Billing.RunnerRows | lib/hubctl/enterprise.rb:581-592 | two rows per runner type, "Minutes (Share)" then "Cost", both under "Actions - " and the SKU |
| Billing.ActionsRows | lib/hubctl/enterprise.rb:575-593 | Total Minutes and Total Cost, then the runner rows in descending order of minutes |
| Billing.Flatten | lib/hubctl/enterprise.rb:567-611 | the table starts with the Enterprise name and total-cost rows; the Actions rows come next when present, the Packages rows follow them, and the Copilot rows close the table; the row count is 2 plus 2 + 2 per runner type, 3 and 2 for the sections present |
| Billing.ActionsRowsOrder | lib/hubctl/enterprise.rb:581-592 | the runner rows appear in descending order of minutes and include every runner type |
| Billing.FlattenRunnerOrder | lib/hubctl/enterprise.rb:567-593 | in the flattened table the runner rows keep that order and completeness |
| Enterprise.ConfiguredIfTruthy | lib/hubctl/enterprise.rb:142 | 'configured' iff the value is present, 'none' iff it is nil |
| Enterprise.MemberRowAsWritten | lib/hubctl/enterprise.rb:134-145 | as written: the row copies the record's login, role, email and two-factor flag and always reads 'configured' for SAML |
| Enterprise.OwnerRowAsWritten | lib/hubctl/enterprise.rb:166-176 | as written: the same with the role 'owner', and always 'configured' for SAML |
| Enterprise.SamlAlwaysConfiguredAsWritten | lib/hubctl/enterprise.rb:134-176 | as written, every member and owner row claims a configured SAML identity |
| Enterprise.SamlCounterexample | lib/hubctl/enterprise.rb:142 | a user without a SAML name id has the record 'none' and the row 'configured' |
| Enterprise.MemberRow | lib/hubctl/enterprise.rb:134-145 | corrected: the row shows the record's login, role, email, two-factor flag and its own SAML status |
| Enterprise.OwnerRow | lib/hubctl/enterprise.rb:166-176 | corrected: the same, with the role fixed to 'owner' |
| Enterprise.RowShowsSamlStatus | lib/hubctl/enterprise.rb:134-176 | corrected, a row reads 'configured' exactly for users with a SAML name id |
| Enterprise.MemberRows | lib/hubctl/enterprise.rb:135-147 | corrected rows: one row per member, in order |
| Enterprise.OwnerRows | lib/hubctl/enterprise.rb:166-178 | corrected rows: one row per owner, in order |
| Enterprise.OwnerRowsAreOwners | lib/hubctl/enterprise.rb:161-178 | owners has one row per user with the Owner role: row i is the row of the i-th owner's record, in input order, and every row says 'owner' |
| Enterprise.BillingAsWritten | lib/hubctl/enterprise.rb:294-389 | as written: a failed fetch goes to the error handler; no usage items (or none listed) gives the no-usage notice; any other usage also fails; the summary is never shown |
| Enterprise.BillingAsWrittenAlwaysFails | lib/hubctl/enterprise.rb:378 | as written, any non-empty usage ends in "Unexpected error: …" and exit 1 |
| Enterprise.BillingReportFor | lib/hubctl/enterprise.rb:294-389 | corrected format test: a failed fetch goes to the error handler with exit 1; otherwise no usage items (or none listed) gives the no-usage notice, json gives the structured summary and any other format the flattened table |
| Enterprise.BillingVersionsAgreeOnNoUsage | lib/hubctl/enterprise.rb:294-389 | the written and corrected commands agree when the fetch fails or there is no usage |
| Enterprise.BillingTableRowCount | lib/hubctl/enterprise.rb:567-611 | the billing table has 2 rows, plus 2 + 2 per distinct runner SKU for Actions, 3 for Packages and 2 for Copilot, each section only when that product has usage |

## Left out

- Network and process effects are parameters or results here:
  - Octokit and HTTP requests are replaced by the responses they return (a page function for the licence pagination, a `Result` for a fetched list).
  - Process exit is the `Exit` value.
  - The spinner, the TTY prompt (the answer is a parameter), `system` running `git clone`, and Pastel colours are not modelled.
- The terminal table layout (TTY::Table) and the JSON text are out. Rendering is the list of rows, or `Json(data)` / `Inspect(data)` markers.
- Float arithmetic is out:
  - `round(1)`, `round(2)` and `to_i`;
  - how Ruby prints a Float in `to_s` and in the "$" strings.

  Quantities are exact `real`s. The billing table's value column is a `Cell` (a name, a dollar amount, a figure, or minutes with a share) rather than the printed string.
- Billing.Percentage: states the share before `round(1)`. The shares sum to exactly 100 only before rounding.
- Billing.SortByMinutesDesc: Ruby's `sort_by` does not fix the order of runner types with equal minutes. The model sorts stably and claims only the descending order and the permutation.
- GitHubClient.Downcase: folds ASCII letters only. Ruby's `downcase` also folds other Unicode letters.
- Formatter.FormatListItem: a non-hash item is printed with its `to_s`, which is a parameter (`show`) here.
- Common.Split: keeps empty fields between separators. It is used only for the tab and space round trips, where it is the natural inverse of `Join`. Ruby's `String#split` drops trailing empty fields and is not modelled.
- Repos.CloneCommand: Thor parses `--depth` as a number, which may print as a Float; the model takes an integer.
- Enterprise.BillingAsWritten: Ruby's exact NoMethodError text is a constant of the model.
- GitHubClient.EnterpriseMembers: turns a failed fetch into an error with the corrected GitHubClient.HandleApiError (Findings row 3). As written, a TooManyRequests error yields the forbidden message instead of the rate-limit one. For every other error class the two handlers agree (GitHubClient.HandleApiErrorAgreesOffRateLimit).
- GitHubClient.EnterpriseOwners: uses the corrected handler too, with the same difference from the code as written.
- Formatter.Stamp: the layout and read-back are stated only for years below 10000. From year 10000 on, `%Y` prints more digits and the model's Field does the same, but the contract then promises only that no breaker occurs.
- Formatter.HashRow: reads cells with the corrected Formatter.CellValue (Findings row 2). As written (Formatter.CellValueAsWritten), a false value under a symbol key shows '-' instead of ✗. This affects the two_factor_disabled cell of every `enterprise members` row of a user with two-factor enabled. For truthy values the two agree (Formatter.CellValueAgreesOnTruthy).
- Formatter.OutputTable: its array-of-hashes rows come from Formatter.HashRow, with the same corrected lookup. A hash inside an array of arrays is shown pair by pair through `[key, value].to_s`, which Ruby builds with `inspect`; that text is a parameter (`showPair`) here.
- Formatter.Output: renders tables through Formatter.OutputTable and inherits its corrected lookup.
- Enterprise.MemberRow: shows the record's own SAML status (Findings row 4). As written, every row reads 'configured' (Enterprise.MemberRowAsWritten).
- Enterprise.OwnerRow: likewise for owners (Enterprise.OwnerRowAsWritten).
- Enterprise.MemberRows: built from the corrected Enterprise.MemberRow. The `members` command's own error path is not repeated: GitHubClient.EnterpriseMembers yields the error, and BaseCommand.HandleError maps it to the exit.
- Enterprise.OwnerRows: built from the corrected Enterprise.OwnerRow.
- Enterprise.OwnerRowsAreOwners: states the corrected rows.
- Enterprise.BillingReportFor: asks for the format the code evidently means (Findings row 1). As written, any usage ends in the unexpected-error exit (Enterprise.BillingAsWritten).
- Some records are not carried:
  - the `id` and `avatar_url` fields of member records (always nil);
  - the "Found N members" summary line.
- Out of scope:
  - the other commands and files (config, cli, orgs, users, teams, audit-log, stats, security settings, licences, organizations);
  - `calculate_estimated_cost`, `scopes` and `rate_limit`;
  - the success/info/warning message helpers beyond the lines listed above.

## Findings

| source | as written | input that shows it | evidently intended | confidence | as-written member | corrected member |
|---|---|---|---|---|---|---|
| lib/hubctl/enterprise.rb:378 | `formatter.json?` is called, but the formatter defines no `json?`; the NoMethodError is rescued as an unexpected error | any enterprise with at least one usage item | show the structured summary for `--format json` and the flattened table otherwise | high, not executed | Enterprise.BillingAsWrittenAlwaysFails | Enterprise.BillingReportFor |
| lib/hubctl/formatter.rb:63 | `item[h.to_sym] \|\| item[h]` replaces a false value by the string-key lookup, which is nil | a row `{two_factor_disabled: false}` shows '-' instead of ✗ | look up the symbol key and fall back to the string key only when it is absent | high, not executed | Formatter.FalseCellShownAsDash | Formatter.CellValue |
| lib/hubctl/github_client.rb:424-439 | the Forbidden branch comes before TooManyRequests, which is a subclass of Forbidden in Octokit | a 429 response yields the forbidden message, and the rate-limit message is never produced | test TooManyRequests before Forbidden | medium (relies on Octokit's class hierarchy), not executed | GitHubClient.RateLimitBranchUnreachable | GitHubClient.HandleApiError |
| lib/hubctl/enterprise.rb:142 | tests the truthiness (also line 173, for owners) of `saml_identity`, already the string 'configured' or 'none', so it is always truthy | a licensed user with no SAML name id is shown as 'configured' | show the record's own 'configured'/'none' | high, not executed | Enterprise.SamlCounterexample | Enterprise.RowShowsSamlStatus |
| lib/hubctl/enterprise.rb:338 | `data[:minutes] / total_minutes` divides Integers when the API reports whole-number quantities | runner types with 30 and 70 of 100 minutes both show 0% | divide as Floats and show 30% and 70% | medium (depends on the API sending integral quantities), not executed | Billing.IntegerSharesCounterexample | Billing.SharesSumToHundred |
