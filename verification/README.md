# Fast Note Sync admin dashboard — a Dafny model

This project models the logic of the Fast Note Sync web dashboard: the React
front end of a note-sync service, where users manage vaults, storages,
backups and Git sync, and read notes. It covers:

- the Obsidian embed transformer of the note viewer: `![[target|meta]]`
  markers become Markdown links or `<img>` tags pointing at the file API;
- the rule table that maps backend error text to translation keys;
- the pagers and duration texts of the backup and Git history views;
- the backup-file link builder;
- the backup, storage and Git configuration forms: defaults, field
  visibility, the storage selection and the repository check;
- the Zod validation schemas;
- the theme provider and its toggle;
- the sign-in page;
- the history and version requests of the API hooks;
- the supporter list sort;
- the system overview;
- the cache buster;
- the language fallback and locale loading;
- the profile menu's sign-in link and configuration JSON;
- the build's vendor chunk classifier.

Pure code is modelled as Dafny functions and lemmas. Code that updates state
is modelled as classes whose methods change their fields. These include the
pagers, the storage selection, the theme provider and document root, the
forms' busy flags, the update checker, the translation registry and the
profile menu.

The environment comes in as parameters. This covers:

- the clock, the random text and the browser language;
- local storage and the OS colour preference;
- locale files and server answers. A fetch is rejected, answered non-2xx,
  or answered with a body.

JavaScript semantics are written out where they matter:

- `%` truncates toward zero;
- `||` and `??` differ;
- `.length` counts UTF-16 code units;
- `Array.prototype.sort` is stable;
- `JSON.stringify` escapes strings;
- `URLSearchParams` and `encodeURIComponent` are the WHATWG form encoding
  and section 19.2.6 of ECMA-262.

Shared modules:

- `Strings`: ASCII case mapping, JavaScript trimming, splitting, decimal
  text;
- `Percent`: UTF-8 and both percent encodings with their decoders;
- `Seqs`: filtering and first-match search;
- `Zod`: how an object schema collects issues and when a refinement runs;
- `Wrappers`: `Option` and `Result`.

## Model

| member | source | states |
|---|---|---|
| MarkdownEmbed.MatchAt | src/components/note/markdown-editor.tsx:138 | a match of `!\[\[([^\]]+)\]\]` at the start of the text is a whole marker whose inner text is non-empty and holds no `]` |
| MarkdownEmbed.MatchAtMarker | src/components/note/markdown-editor.tsx:138 | every well-formed marker is matched, with exactly its inner text |
| MarkdownEmbed.Scan | src/components/note/markdown-editor.tsx:138 | the global replace's walk: every marker found has a non-empty inner text without `]` |
| MarkdownEmbed.RenderScan | src/components/note/markdown-editor.tsx:138 | the plain characters and markers the walk finds cover the note exactly, in order, without overlap |
| MarkdownEmbed.ScanMarkerFirst | src/components/note/markdown-editor.tsx:138 | a marker is consumed whole and scanning resumes after it, so replacement text is never rescanned |
| MarkdownEmbed.ScanNoOpen | src/components/note/markdown-editor.tsx:138 | text without `![[` holds no marker |
| MarkdownEmbed.RawPath | src/components/note/markdown-editor.tsx:139-140 | the raw path (first `|` piece, cut at the first `#`, trimmed) holds no `#` and has no surrounding whitespace |
| MarkdownEmbed.RawPathOfPlainTarget | src/components/note/markdown-editor.tsx:139-140 | a target without `|`, `#` or surrounding blanks is its own raw path, and the meta pieces are the rest split on `|` |
| MarkdownEmbed.Resolve | src/components/note/markdown-editor.tsx:143 | the link-map entry when present and non-empty, otherwise the raw path; never empty for a non-empty raw path |
| MarkdownEmbed.ClassifyIgnoresCase | src/components/note/markdown-editor.tsx:38-40 | the attachment kind does not depend on letter case |
| MarkdownEmbed.KindOfExtension | src/components/note/markdown-editor.tsx:103-108 | every listed extension, after any stem and in any case, gives its own kind (image, video or audio), checked in that order |
| MarkdownEmbed.OggIsAudio | src/components/note/markdown-editor.tsx:39-40 | `.ogg` is audio and `.ogv` is video |
| MarkdownEmbed.UnknownIsFile | src/components/note/markdown-editor.tsx:107 | a path with none of the listed extensions is a plain file |
| MarkdownEmbed.HasExtensionExactly | src/components/note/markdown-editor.tsx:38-40 | among dot-free extensions, `stem.v` matches a list exactly when `v` is in it |
| MarkdownEmbed.ExtensionListsDisjoint | src/components/note/markdown-editor.tsx:38-40 | no extension is in two of the three lists |
| MarkdownEmbed.ReplaceAllAppend | src/components/note/markdown-editor.tsx:121-128 | a global single-character replace distributes over concatenation |
| MarkdownEmbed.EscapeMarkdownIsEscapeChars | src/components/note/markdown-editor.tsx:121-128 | the chain of five replacements, backslash first, equals one pass putting a backslash before each of `\ [ ] ( )` |
| MarkdownEmbed.EscapeRoundTrip | src/components/note/markdown-editor.tsx:121-128 | removing one backslash before each escaped character gives the original text back |
| MarkdownEmbed.DisplayName | src/components/note/markdown-editor.tsx:145 | the link text unescapes to the trimmed first meta piece when non-empty, else to the trimmed raw path |
| MarkdownEmbed.Width | src/components/note/markdown-editor.tsx:150 | a width exists exactly when the first meta piece is a non-empty run of ASCII digits, and it is that piece |
| MarkdownEmbed.FileApiUrl | src/components/note/markdown-editor.tsx:94-101 | the URL starts with `<api>/api/file?` and its query parses back to exactly vault, path and token, in that order |
| MarkdownEmbed.NoMarkerUnchanged | src/components/note/markdown-editor.tsx:136-138 | a note without `![[` (the empty note included) comes back unchanged |
| MarkdownEmbed.TransformMarkerFirst | src/components/note/markdown-editor.tsx:138-163 | a note starting with a marker becomes that marker's replacement followed by the transformed rest |
| MarkdownEmbed.EmptyPathKept | src/components/note/markdown-editor.tsx:141 | a marker whose raw path is empty is kept verbatim |
| MarkdownEmbed.ImageWithWidth | src/components/note/markdown-editor.tsx:148-153 | an image with a numeric width becomes an `<img>` tag with the file URL, the raw path as alt text and that width |
| MarkdownEmbed.PlainFileLink | src/components/note/markdown-editor.tsx:162 | an unknown extension gives a paperclip link whose text is the escaped path |
| ErrorMapper.FirstIndex | src/lib/utils/error-mapper.ts:58-63 | the index found is of a rule that matches with none matching before it; none exactly when no rule matches |
| ErrorMapper.FindFirst | src/lib/utils/error-mapper.ts:58-63 | the `for` loop over the rules returns the first matching rule, as `FirstIndex` specifies |
| ErrorMapper.MapError | src/lib/utils/error-mapper.ts:56-64 | `mapError`: null for an empty message, else the key of the first matching rule (`Classify`) |
| ErrorMapper.ClassifyIsFirstMatch | src/lib/utils/error-mapper.ts:56-64 | a key returned belongs to a matching rule with no earlier match; null exactly for the empty message or when nothing matches |
| ErrorMapper.ClassifyIgnoresCase | src/lib/utils/error-mapper.ts:15-49 | every pattern carries `/i`: lower-casing the message changes nothing |
| ErrorMapper.WebdavAlwaysWebdav | src/lib/utils/error-mapper.ts:15-22 | any message containing `webdav;` gets a WebDAV key, because the WebDAV catch-all precedes all later rules |
| ErrorMapper.WebdavSameLine | src/lib/utils/error-mapper.ts:15 | `webdav; 401` is classified as unauthorized |
| ErrorMapper.WebdavNextLine | src/lib/utils/error-mapper.ts:15-22 | with the code on the next line (`.` does not cross a line terminator) only the WebDAV catch-all matches |
| ErrorMapper.ThenAnyHasFirst | src/lib/utils/error-mapper.ts:15-33 | a `first.*second` pattern matches only where its first part occurs |
| ErrorMapper.ThenAnyHasSecond | src/lib/utils/error-mapper.ts:15-33 | a `first.*second` pattern matches only where its second part occurs |
| ErrorMapper.FirstIndexSkip | src/lib/utils/error-mapper.ts:58-62 | when the first `n` rules fail, the search result is the rest-of-table result shifted by `n` |
| ErrorMapper.S3FallsThrough | src/lib/utils/error-mapper.ts:25-33 | the S3 group has no catch-all: a message with no WebDAV marker and none of the S3 conditions is classified by the rules from OSS on |
| Paging.CeilDiv | src/components/layout/backup-history-dialog.tsx:77 | `Math.ceil(t / n)`: the least `r` with `t <= n * r` |
| Paging.TotalPages | src/components/layout/git-history-dialog.tsx:47 | Git lists: at least one page, one page for a total of 0 or less, else the ceiling of total/10; backup list: the plain ceiling of total/5 (backup-history-dialog.tsx:77) |
| Paging.PageCounter | src/components/layout/git-history-dialog.tsx:159 | "page / pages" exactly when the total is known (Git: positive; backup: not -1, backup-history-dialog.tsx:195), otherwise the page alone; the page shown is the current page |
| Paging.NextEnabledIffMoreRows | src/components/layout/git-history-dialog.tsx:170 | with a known total, "next" is enabled exactly when not loading and rows remain after the current page, and then the next page exists |
| Paging.NextWithUnknownTotal | src/components/layout/backup-history-dialog.tsx:206 | with total -1, "next" is enabled exactly when not loading and the last page came back full |
| Paging.PagerShownIffSeveralPages | src/components/layout/git-history-dialog.tsx:139 | with a known positive total the pager shows exactly when the total exceeds one page |
| Paging.EmptyLaterPage | src/components/layout/git-automation.tsx:325-372 | an empty later page with an unknown total keeps the dialogs' pager (git-history-dialog.tsx:139) but hides the global panel's, which sits inside the rows branch |
| Paging.PlacementsAgreeWithRows | src/components/layout/git-automation.tsx:372 | with rows on screen the global panel's pager shows exactly when a dialog's would |
| Paging.BackupEmptyHistory | src/components/layout/backup-history-dialog.tsx:77 | a backup total of 0 gives zero pages, no pager and a disabled "next" |
| Paging.GitEmptyHistory | src/components/layout/git-history-dialog.tsx:47 | a Git total of 0 gives one page and no pager, and "next" follows the row count (git-history-dialog.tsx:170) |
| Paging.HistoryPager.constructor | src/components/layout/git-history-dialog.tsx:25-28 | the initial state: page 1, total 0, no rows, not loading |
| Paging.HistoryPager.Reset | src/components/layout/git-history-dialog.tsx:40-45 | opening the dialog (or the global refresh, git-automation.tsx:311): page 1, page 1 requested, loading, rows and total kept |
| Paging.HistoryPager.Previous | src/components/layout/git-history-dialog.tsx:149-154 | an enabled "previous" moves to the page before and loads it, keeping page and rows in step |
| Paging.HistoryPager.Next | src/components/layout/git-history-dialog.tsx:165-170 | an enabled "next" moves to the page after and loads it, never past the last page when the total is known |
| Paging.HistoryPager.ReloadAfterExecute | src/components/layout/git-automation.tsx:74-81 | as written: page 1 is loaded while the counter keeps its page, so the state is consistent only if the page already was 1 |
| Paging.HistoryPager.Loaded | src/components/layout/git-history-dialog.tsx:31-38 | the rows and total are replaced only on success, the loading flag is cleared either way, the page is kept |
| Duration.RoundSeconds | src/components/layout/git-history-dialog.tsx:54 | `Math.round(ms / 1000)` for a non-negative duration: the nearest whole second, halves rounding up |
| Duration.FormatSeconds | src/components/layout/git-history-dialog.tsx:55-56 | the text ends in "s" |
| Duration.CalcDuration | src/components/layout/git-history-dialog.tsx:50-57 | "-" exactly for an empty or invalid timestamp or an end before the start; otherwise a text that reads back as the rounded seconds (the same function is git-automation.tsx:102-109) |
| Duration.FormatParse | src/components/layout/git-history-dialog.tsx:55-56 | formatting loses nothing: the shown minutes and seconds read back as the seconds formatted |
| Duration.FormatShape | src/components/layout/git-history-dialog.tsx:55-56 | under a minute only seconds; from a minute on `<m>m <s>s` with `60m + s` the total and `s < 60` |
| GitHistoryDialog.ViewOf | src/components/layout/git-history-dialog.tsx:59-64 | status 1 running, 2 succeeded, 3 failed, and exactly the other values idle (icon and badge, lines 113-117) |
| GitHistoryDialog.ViewDistinguishesKnownStates | src/components/layout/git-history-dialog.tsx:59-64 | two different statuses share a view only when neither is 1, 2 or 3 |
| GitHistoryDialog.StatusKey | src/components/layout/git-history-dialog.tsx:119 | the label key is `ui.git.status.<status>` |
| GitHistoryDialog.Headers | src/components/layout/git-history-dialog.tsx:81-89 | the header starts with ID and ends with the message column, and has the config-id column exactly when the dialog is unfiltered |
| GitHistoryDialog.PlaceholderSpansHeader | src/components/layout/git-history-dialog.tsx:94 | the loading and empty rows span exactly the header: 6 columns unfiltered, 5 filtered |
| GitHistoryDialog.Title | src/components/layout/git-history-dialog.tsx:72-74 | the title, followed by ` #<id>` exactly when filtered to a configuration |
| GitHistoryDialog.OrDash | src/components/layout/git-history-dialog.tsx:108 | `value \|\| "-"`: never empty, and a non-empty value is shown as it is (also line 123) |
| GitAutomation.VaultName | src/components/layout/git-automation.tsx:97-99 | the vault of the first configuration with that id (even when empty, `??`), and `#<id>` when no configuration has it |
| GitAutomation.EmptyVaultKept | src/components/layout/git-automation.tsx:98 | a configuration with an empty vault name shows the empty name, not the id fallback |
| GitAutomation.FailureShownOnlyWhenFailed | src/components/layout/git-automation.tsx:275 | the failure message shows exactly for a non-empty message whose last status is the failed one (icon at lines 258-266) |
| GitAutomation.ConfigStatusKey | src/components/layout/git-automation.tsx:271 | a missing last status is labelled as status 0, a present one by its own value |
| GitAutomation.AreaOf | src/components/layout/git-automation.tsx:173-178 | rows whenever there are any, the spinner exactly while loading with none, the placeholder otherwise (also the history list, lines 321-326) |
| StorageConfigs.StorageWithId | src/components/layout/backup-history-dialog.tsx:55 | `storages.find(s => Number(s.id) === id)`: the storage at the first position carrying that id, and none exactly when no storage has it |
| BackupHistoryDialog.StorageTypeOf | src/components/layout/backup-history-dialog.tsx:49-52 | the type of the first storage with that id, "-" when there is none |
| BackupHistoryDialog.DropTrailingSlash | src/components/layout/backup-history-dialog.tsx:58 | the text itself, or the text less one final slash |
| BackupHistoryDialog.DropLeadingSlash | src/components/layout/backup-history-dialog.tsx:66 | the text itself, or the text less one leading slash |
| BackupHistoryDialog.CustomSegment | src/components/layout/backup-history-dialog.tsx:59-63 | the custom-path part is empty or starts with a slash |
| BackupHistoryDialog.FileUrl | src/components/layout/backup-history-dialog.tsx:54-68 | `getFileUrl` with its step-by-step reassignments computes the link `FileUrlOf` defines: none for an unknown storage or an empty prefix |
| BackupHistoryDialog.LinkOf | src/components/layout/backup-history-dialog.tsx:56-67 | the part after the storage is found computes `LinkFor`: prefix, custom path and file path joined by single slashes |
| BackupHistoryDialog.FileUrlSingleSlashes | src/components/layout/backup-history-dialog.tsx:58-67 | when none of prefix, custom path and file path holds "//", neither does the link |
| BackupHistoryDialog.FileUrlEnds | src/components/layout/backup-history-dialog.tsx:58-67 | the link starts with the prefix (less one trailing slash) and ends with a slash and the file path (less one leading slash) |
| BackupHistoryDialog.FileName | src/components/layout/backup-history-dialog.tsx:145 | the name shown is a suffix of the path: the whole path or a slash-free last segment, never empty for a non-empty path |
| BackupHistoryDialog.FileNameCases | src/components/layout/backup-history-dialog.tsx:145 | a path ending in "/" is shown whole, any other by its last segment |
| BackupForm.ActiveStoragesExact | src/components/layout/backup-form.tsx:33 | the storages on offer are exactly the enabled ones, in their original order |
| BackupForm.InitialIds | src/components/layout/backup-form.tsx:36-38 | empty for a new configuration or an empty `storageIds`; otherwise only parsed ids that name an active storage |
| BackupForm.InitialIdsKeepEnabled | src/components/layout/backup-form.tsx:36-38 | a saved id survives exactly when an enabled storage carries it, and the survivors keep their saved order |
| BackupForm.WithoutMembers | src/components/layout/backup-form.tsx:73 | `filter(i => i !== id)`: the id is gone and every other id is kept |
| BackupForm.WithoutAbsent | src/components/layout/backup-form.tsx:73 | removing an id that is not there changes nothing |
| BackupForm.Toggle | src/components/layout/backup-form.tsx:72-74 | the toggled id is selected afterwards exactly when it was not before; no other id changes membership |
| BackupForm.ToggleKeepsOthers | src/components/layout/backup-form.tsx:72-74 | the other ids keep their relative order |
| BackupForm.ToggleTwiceAbsent | src/components/layout/backup-form.tsx:72-74 | toggling an unselected id twice restores the list exactly |
| BackupForm.ToggleTwicePresent | src/components/layout/backup-form.tsx:72-74 | toggling a selected id twice moves it, once, to the end |
| BackupForm.Json | src/components/layout/backup-form.tsx:76 | `JSON.stringify` of the ids is a bracketed text |
| BackupForm.JsonRoundTrip | src/components/layout/backup-form.tsx:54 | the `storageIds` field reads back (as `JSON.parse` reads it, line 37) as exactly the selection |
| BackupForm.JsonEmpty | src/components/layout/backup-form.tsx:76 | only the empty selection is written as `[]` |
| BackupForm.Selection.constructor | src/components/layout/backup-form.tsx:39 | the form opens with the initial ids checked and their JSON in the field (line 54) |
| BackupForm.Selection.ToggleStorage | src/components/layout/backup-form.tsx:71-77 | a click toggles the selection and rewrites the field as its JSON |
| BackupForm.OrString | src/components/layout/backup-form.tsx:50 | `value \|\| fallback`: a missing or empty value falls back |
| BackupForm.Defaults | src/components/layout/backup-form.tsx:49-57 | a new form gets "", daily, `0 0 * * *`, enabled and 30 days; a saved one keeps its type, its vault, strategy and expression unless missing or empty (`||`, falling back to "", daily and `0 0 * * *`), and its enabled flag and retention unless missing (`??`); the storage field is the JSON of the initial selection |
| BackupForm.DefaultsKeepFalsyNumbers | src/components/layout/backup-form.tsx:52-56 | an empty strategy becomes daily, but a saved `false` and a saved 0 are kept |
| BackupForm.RetentionLabel | src/components/layout/backup-form.tsx:162-166 | the sync wording exactly for sync, the backup wording exactly for full and incremental |
| BackupForm.VisibilityTable | src/components/layout/backup-form.tsx:122 | the schedule shows only for full and incremental; retention also for sync (line 159); neither before a type is chosen |
| BackupForm.SubmitRequest | src/components/layout/backup-form.tsx:62-69 | the submitted data is the form data with the configuration's id, none for a new configuration |
| StorageForm.EndpointFor | src/components/layout/storage-form.tsx:92 | the OSS endpoint input exactly for oss, the WebDAV URL exactly for webdav (line 122), the MinIO endpoint exactly for minio (line 152) |
| StorageForm.VisibleMatchesTable | src/components/layout/storage-form.tsx:92-204 | the form's per-block conditions agree with a type-by-type table of inputs |
| StorageForm.NotableRows | src/components/layout/storage-form.tsx:162-181 | access keys show before a type is chosen but the bucket does not; local storage shows only the custom path and the URL prefix; WebDAV and S3 share only those two |
| StorageForm.EnabledChecked | src/components/layout/storage-form.tsx:213 | the enabled box starts checked for a new storage, else exactly when the saved flag is truthy |
| StorageForm.SubmitData | src/components/layout/storage-form.tsx:55-62 | on edit the submitted data takes the saved id; a new storage's data is sent unchanged; type and flag are never touched |
| StorageForm.Form.constructor | src/components/layout/storage-form.tsx:32-41 | the saved storage's values (or enabled and nothing else for a new one), with the type state taken from them |
| StorageForm.Form.SelectType | src/components/layout/storage-form.tsx:72-75 | picking a type sets both the form value and the type state |
| StorageForm.Form.SetEnabled | src/components/layout/storage-form.tsx:214 | the box writes `Boolean(checked)` and nothing else |
| Schemas.BackupSchemaAccepts | src/lib/validations/backup-schema.ts:4-24 | the backup schema passes exactly when the vault is non-empty, the type and strategy are among their options, the expression is a string or absent, the storage list text is non-empty, the flag is a boolean or absent, the retention is absent or at least 1, and a custom strategy has a non-empty expression |
| Schemas.CustomCronNeedsExpression | src/lib/validations/backup-schema.ts:16-24 | with every field in order, a custom strategy without an expression draws exactly one issue, on `cronExpression`; the other strategies need no expression |
| Schemas.RefinementSkippedOnAbort | src/lib/validations/backup-schema.ts:6-24 | when a field aborts (no type chosen), the custom-expression refinement does not run and reports nothing on the expression |
| Schemas.SelectionPassesStorageIds | src/lib/validations/backup-schema.ts:13 | the JSON text the backup form writes for any selection of storages, even none, passes the storage field's length check |
| Schemas.BackupEnabled | src/lib/validations/backup-schema.ts:14 | the parsed flag is true when absent and the given boolean otherwise |
| Schemas.GitSyncSchemaAccepts | src/lib/validations/git-sync-schema.ts:7-17 | the Git sync schema passes exactly when the id is a number or absent, vault, repository URL and branch are non-empty, the URL is a URL, the credentials are strings or absent, the delay is at least 0, the retention is absent or at least -1 and the flag is a boolean or absent |
| Schemas.EmptyRepoUrlTwoIssues | src/lib/validations/git-sync-schema.ts:10 | an empty repository URL fails both the length check and the URL check |
| Schemas.GitRetentionDays | src/lib/validations/git-sync-schema.ts:15 | the parsed retention is at least -1, and 0 when absent |
| Schemas.LoginSchemaAccepts | src/lib/validations/user-schema.ts:4-12 | login passes exactly when the credentials are non-empty and the password has at least six UTF-16 code units; six characters always suffice and fewer than three never do |
| Schemas.Remember | src/lib/validations/user-schema.ts:11 | the coerced `remember` is false when absent, the boolean when a boolean, and non-emptiness when a string |
| Schemas.RegisterSchemaAccepts | src/lib/validations/user-schema.ts:15-25 | registration passes exactly when the username has three code units, the e-mail is valid, both passwords have six, and the two passwords are equal |
| Schemas.MismatchReportedOnConfirmation | src/lib/validations/user-schema.ts:22-25 | two different passwords are rejected with an issue on the confirmation field |
| Schemas.ChangePasswordAcceptsStrings | src/lib/validations/user-schema.ts:43-47 | the password change schema accepts any mix of present and absent strings, matching or not |
| Schemas.StorageSchemaAccepts | src/lib/validations/storage-schema.ts:8-27 | a storage passes exactly when its type is one the server declares, the optional texts are strings or absent, the URL prefix is non-empty and the flag is a boolean, a number or absent |
| Schemas.StorageEnabled | src/lib/validations/storage-schema.ts:22-26 | the parsed flag is the truthiness of a boolean or number, and stays absent when absent |
| Schemas.VaultSchemaAccepts | src/lib/validations/vault-schema.ts:7-9 | a vault name passes exactly when it is a non-empty string; a blank name passes |
| GitConfigForm.Defaults | src/components/layout/git-config-form.tsx:54-69 | an edit starts from every saved field, the retention falling back to 30 only when missing; a new configuration starts enabled on "main" with delay 10 and 30 days, and nothing else set |
| GitConfigForm.SavedRetentionKept | src/components/layout/git-config-form.tsx:62 | a saved retention, 0 or -1 included, is kept as it is |
| GitConfigForm.ValidateRequestOf | src/components/layout/git-config-form.tsx:195-205 | the repository check sends nothing exactly when the URL is missing or empty, and otherwise sends the URL, branch and credentials as they are in the form |
| GitConfigForm.ValidateIgnoresOtherFields | src/components/layout/git-config-form.tsx:200-205 | the request depends only on URL, branch, username and password |
| GitConfigForm.Form.constructor | src/components/layout/git-config-form.tsx:35-36 | the form opens with the password hidden and nothing in progress |
| GitConfigForm.ClickAsWritten | src/components/layout/git-config-form.tsx:194-206 | the click handler as written: with a URL the form turns busy; a request goes out only if the handler exists; the click throws and the form stays busy unless the call returns normally |
| GitConfigForm.ClickWithFinally | src/components/layout/git-config-form.tsx:194-206 | the same click with the flag cleared in a `finally`: the same request and throw, and the form never left busy |
| GitConfigForm.MissingHandlerLocksForm | src/components/layout/git-config-form.tsx:33 | `handleGitSyncValidate` is not among the handlers `useGitHandle` returns (src/components/api-handle/git-handle.ts:209-223), so a click with a URL sends nothing, throws and leaves the form busy |
| GitConfigForm.Form.ClickValidate | src/components/layout/git-config-form.tsx:190-206 | a disabled button takes no click; otherwise the flags and results are exactly `ClickAsWritten` |
| GitConfigForm.Form.ClickValidateWithFinally | src/components/layout/git-config-form.tsx:190-206 | a disabled button takes no click; otherwise the flags and results are exactly `ClickWithFinally` |
| GitConfigForm.Form.TogglePassword | src/components/layout/git-config-form.tsx:138 | the eye button flips the password's visibility and nothing else |
| GitConfigForm.ValidateRoundAsWritten | src/components/layout/git-config-form.tsx:184-212 | as written, after a click with a URL the cancel, validate and save buttons stay disabled, and neither that click nor the next sends a request |
| GitConfigForm.ValidateRound | src/components/layout/git-config-form.tsx:184-212 | with the `finally`, the buttons are enabled again after a click, whatever the handler does |
| ThemeContext.AutoMode | src/components/context/theme-context.tsx:23-27 | auto mode is dark exactly from 18:00 to before 06:00 |
| ThemeContext.Resolve | src/components/context/theme-context.tsx:74-89 | light and dark resolve to themselves, system to the OS preference, auto to the hour's mode |
| ThemeContext.ParseStored | src/components/context/theme-context.tsx:59-72 | a stored value is used exactly when it names one of the four themes; anything else, or nothing, gives the default |
| ThemeContext.StoredRoundTrip | src/components/context/theme-context.tsx:59-72 | a theme written to storage is read back as itself |
| ThemeContext.WithModeClass | src/components/context/theme-context.tsx:41-46 | the root ends with the mode's class and exactly one of light and dark; every other class is kept |
| ThemeContext.WithModeClassLast | src/components/context/theme-context.tsx:41-46 | applying two modes in turn is applying the last one |
| ThemeContext.Document.ApplyTheme | src/components/context/theme-context.tsx:29-46 | the classes are updated as above and the meta colour is the mode's (#413a2c dark, #eae9e3 light); storage is untouched |
| ThemeContext.Document.Store | src/components/context/theme-context.tsx:113 | one storage key is written and the root is untouched |
| ThemeContext.Provider.constructor | src/components/context/theme-context.tsx:54-117 | on mount the stored or default theme is chosen, resolved, shown on the root and persisted |
| ThemeContext.Provider.SetTheme | src/components/context/theme-context.tsx:81-117 | a new theme is resolved and shown, and the theme name (not the mode) is stored |
| ThemeContext.Provider.Tick | src/components/context/theme-context.tsx:96-108 | the minute timer changes the root exactly in auto mode when the hour gives a different mode; storage never changes |
| ThemeContext.Provider.SystemChanged | src/components/context/theme-context.tsx:120-133 | an OS change is followed only in system mode; otherwise the mode and root stay |
| ThemeContext.UseTheme | src/components/context/theme-context.tsx:146-152 | outside a provider the hook fails with its message; inside it hands over the context unchanged |
| ActionGroup.NextTheme | src/components/layout/ActionGroup.tsx:29-33 | the button goes light to dark to auto to light, and from system to light; it never picks system |
| ActionGroup.ToggleCycle | src/components/layout/ActionGroup.tsx:29-33 | three clicks from any theme but system come back to it, and every click changes the theme |
| ActionGroup.ClicksRepeat | src/components/layout/ActionGroup.tsx:29-33 | after any number of clicks the theme is not system, and it repeats with period three |
| ActionGroup.ThemeIcon | src/components/layout/ActionGroup.tsx:46-52 | sun-and-moon exactly in auto mode, otherwise moon exactly when the resolved mode is dark, sun when light |
| ActionGroup.TitleMatchesIcon | src/components/layout/ActionGroup.tsx:44-52 | the button's title always names the theme its icon shows |
| AuthForm.TabAfter | src/components/user/auth-form.tsx:79-86 | asking for the open tab does nothing; asking for a closed registration keeps the tab and raises the "registerClosed" toast; the result is always the requested or the current tab |
| AuthForm.TabReachability | src/components/user/auth-form.tsx:79-86 | login is always reachable without a toast; the register tab is reached exactly when registration is open or already shown |
| AuthForm.Page.constructor | src/components/user/auth-form.tsx:44 | the page opens on the login tab |
| AuthForm.Page.ToggleTab | src/components/user/auth-form.tsx:79-86 | the tab and toasts change as `TabAfter` says |
| AuthForm.Page.Submitted | src/components/user/auth-form.tsx:61-77 | a success calls `onSuccess` once and shows nothing; a failure shows the error and calls nothing |
| AuthForm.FlipTheme | src/components/user/auth-form.tsx:105 | the page's button picks an explicit theme that can never resolve to the mode shown |
| ApiHandles.SuccessRangesDiffer | src/components/api-handle/backup-handle.ts:167 | the backup hooks accept codes 1 to 99, the Git hooks 1 to 200 (git-handle.ts line 195): every backup success is a Git success, and 100 to 200 are successes only for Git |
| ApiHandles.ThrownText | src/components/api-handle/backup-handle.ts:184 | a thrown `Error` concatenates as its name, ": " and its message, or as whichever of the two is not empty; anything else as its own text |
| ApiHandles.FetchFailureText | src/components/api-handle/backup-handle.ts:184 | a failed fetch reads "TypeError: Failed to fetch", and the thrown non-2xx error "Error: Network response was not ok" |
| ApiHandles.FieldText | src/components/api-handle/backup-handle.ts:181 | a missing message or details field concatenates as "undefined" |
| ApiHandles.NormaliseBackupHistory | src/components/api-handle/backup-handle.ts:170-178 | an array answer gives its items and the top-level total or -1; a list object gives its list and `pager.totalRows`, else its own total, else 0; anything else an empty page of 0 |
| ApiHandles.UnknownTotalOrigin | src/components/api-handle/backup-handle.ts:170-175 | a total of -1 comes only from an array answer without a total, or from the server sending -1 itself |
| ApiHandles.BackupHistoryOutcome | src/components/api-handle/backup-handle.ts:148-186 | a rejection or non-2xx answer opens the failure dialog with the thrown text; a failing code opens a dialog with message and details; a success calls the callback with the normalised page when there is one and does nothing otherwise |
| ApiHandles.CallbackOnlyGatesDelivery | src/components/api-handle/backup-handle.ts:167-182 | whether a callback is passed changes only whether a success is delivered; errors are reported the same either way |
| ApiHandles.NotOkIsRejection | src/components/api-handle/backup-handle.ts:162-164 | a non-2xx answer is reported exactly as a thrown "Network response was not ok" |
| ApiHandles.BackupHistoryQueryText | src/components/api-handle/backup-handle.ts:150 | the backup history query starts with the page and page size and ends with the configuration id |
| ApiHandles.BackupHistoryQuery | src/components/api-handle/backup-handle.ts:150 | for non-negative numbers the hand-written query equals the form encoding of the three pairs in order |
| ApiHandles.BackupHistoryUrlBusted | src/components/api-handle/backup-handle.ts:150-152 | the history URL already has a query, so the cache buster continues it with "&" |
| ApiHandles.GitHistoryOf | src/components/api-handle/git-handle.ts:196-199 | the delivered list is the data's list or empty, and the total is the data's total or -1 |
| ApiHandles.MessageOr | src/components/api-handle/git-handle.ts:201 | the server's message unless it is missing or empty, else the fallback |
| ApiHandles.GitHistoryOutcome | src/components/api-handle/git-handle.ts:171-207 | a thrown `Error` toasts its message, anything else thrown and a non-2xx answer toast the translated fallback; a code 1 to 200 delivers the list and total; any other code toasts the server's message or the fallback |
| ApiHandles.Code150 | src/components/api-handle/git-handle.ts:195-199 | code 150 with no data is an empty Git page of unknown size but a failure for the backup hooks |
| ApiHandles.GitHistoryParams | src/components/api-handle/git-handle.ts:178-184 | page and page size always, in that order, and the configuration id third only when given |
| ApiHandles.GitHistoryQueryReadsBack | src/components/api-handle/git-handle.ts:178-185 | the serialised query parses back to exactly the pairs sent, the configuration id among them exactly when it was given |
| ApiHandles.GitHeaders | src/components/api-handle/git-handle.ts:16-26 | authorisation (a missing token sent as "Bearer null"), domain and language always, and the JSON content type exactly when asked for |
| ApiHandles.HeadersAgree | src/components/api-handle/backup-handle.ts:154-159 | the backup hook's inline headers are the Git hook's with a content type; the Git history request (git-handle.ts line 187) carries none |
| UpdateCheck.OrElse | src/components/api-handle/use-update-check.ts:55 | `a \|\| b`: the first unless it is missing or empty |
| UpdateCheck.MissingCodeAccepted | src/components/api-handle/use-update-check.ts:48 | a body with data and no `code` passes both comparisons and is taken as an answer |
| UpdateCheck.Derive | src/components/api-handle/use-update-check.ts:52-60 | an update exactly when the server says the version is new; the latest version is the new name (when new) or the running version, the git tag standing in for an empty one; the other fields are copied |
| UpdateCheck.CheckOutcome | src/components/api-handle/use-update-check.ts:31-67 | a result exactly for a 2xx answer with data and a code from 1 to 99 or no code at all; otherwise "GitHub API error: " and the status, the server's message or "Failed to get version info", a thrown error's message, or "Failed to check for updates" |
| UpdateCheck.FailureHasMessage | src/components/api-handle/use-update-check.ts:43-67 | every failure leaves a non-empty error, given a thrown `Error` has a message |
| UpdateCheck.Checker.constructor | src/components/api-handle/use-update-check.ts:18-20 | the hook starts idle with no error and no result |
| UpdateCheck.Checker.CheckUpdate | src/components/api-handle/use-update-check.ts:22-71 | an empty version sets "Current version is unknown" and sends nothing; otherwise one request is sent, a result is stored and returned or the error is set, and the hook is idle again at the end |
| UpdateCheck.CheckOnce | src/components/api-handle/use-update-check.ts:62-70 | past the guard, the error is set exactly when nothing was returned, and checking has ended |
| CacheBuster.RandomPart | src/lib/utils/cache-buster.ts:12 | `substring(2, 15)` of the base-36 text: at most 13 characters, clamped at both ends, all taken from that text |
| CacheBuster.Separator | src/lib/utils/cache-buster.ts:10 | "&" exactly when the URL already holds a "?", else "?" |
| CacheBuster.AddCacheBuster | src/lib/utils/cache-buster.ts:9-15 | the URL is kept as a prefix, followed by the separator, the timestamp and random part, and ends with the language parameter |
| CacheBuster.OneQuery | src/lib/utils/cache-buster.ts:10-14 | the busted URL has as many "?" as the URL had, or exactly one if it had none |
| I18n.GetBrowserLang | src/i18n/utils.ts:13-23 | the stored language when non-empty, else the browser's when non-empty, else "en"; never empty |
| I18n.LoadExact | src/i18n/translations.ts:19-27 | the bundle of the first file at exactly the locale path, and none when no file has it |
| I18n.LoadCaseInsensitive | src/i18n/translations.ts:29-41 | what importing the first file whose lower-cased path is the lower-cased locale path gives, and nothing when no path matches |
| I18n.ResolveLocale | src/i18n/translations.ts:16-52 | the exact file wins, then the case-insensitive match, then zh-CN's file unless zh-CN itself was asked for |
| I18n.AfterEnsure | src/i18n/translations.ts:11-57 | a language already registered is left alone; otherwise whatever was found is registered under the requested name, and nothing when nothing was found |
| I18n.EnsureIdempotent | src/i18n/translations.ts:11-57 | loading a language twice is loading it once |
| I18n.EnsureTouchesOnlyLang | src/i18n/translations.ts:54-56 | no other language's bundle is added, removed or changed |
| I18n.NoFallbackForFallback | src/i18n/translations.ts:44 | asked for zh-CN with no zh-CN file, nothing is registered |
| I18n.FallbackRegisteredUnderRequested | src/i18n/translations.ts:44-56 | a language with no file gets zh-CN's bundle under its own name |
| I18n.Registry.constructor | src/i18n/translations.ts:59-60 | the registry starts with no bundles and the given storage and language |
| I18n.Registry.EnsureResourceLoaded | src/i18n/translations.ts:11-57 | the stage-by-stage loader leaves exactly `AfterEnsure` of the bundles, and nothing else changes |
| I18n.Registry.ChangeLang | src/i18n/utils.ts:5-10 | the language is stored, its resources loaded, then switched to, in that order |
| I18n.ChangeLangReadBack | src/i18n/utils.ts:5-23 | after a change to a non-empty language, `getBrowserLang` reads it back whatever the browser says |
| ProfileButton.FirstLetter | src/components/navigation/ProfileButton.tsx:83 | the upper-cased first character, or nothing for a missing or empty name |
| ProfileButton.AvatarInitial | src/components/navigation/ProfileButton.tsx:83 | one character: the username's first letter, else the uid's, else "U" |
| ProfileButton.ObsidianUrl | src/components/navigation/ProfileButton.tsx:48-52 | the link starts with the plugin's SSO prefix |
| ProfileButton.SsoLinkRoundTrip | src/components/navigation/ProfileButton.tsx:48-52 | decoding the link's two parameters gives back the API address and the token ("" when missing) |
| ProfileButton.EscapeChar | src/components/navigation/ProfileButton.tsx:42-45 | a character is escaped exactly when it is a quote, a backslash or a control character |
| ProfileButton.ReadEscaped | src/components/navigation/ProfileButton.tsx:42-45 | a JSON reader turns an escaped string followed by its closing quote back into the string, stopping at the quote |
| ProfileButton.ConfigJsonRoundTrip | src/components/navigation/ProfileButton.tsx:41-46 | the copied configuration reads back as exactly the API address and the token ("" when missing) |
| ProfileButton.Menu.constructor | src/components/navigation/ProfileButton.tsx:31-34 | the menu and both dialogs start closed |
| ProfileButton.Menu.HandleLogout | src/components/navigation/ProfileButton.tsx:62-65 | the menu closes and then `onLogout` is called; the dialogs are untouched |
| ProfileButton.Menu.HandleCopyConfig | src/components/navigation/ProfileButton.tsx:55-59 | the configuration dialog opens without an error, then the menu closes |
| SupportList.MenuChoice | src/components/layout/support-list.tsx:128-134 | both menu entries sort by their key, largest or latest first |
| SupportList.RemoveCommas | src/components/layout/support-list.tsx:29-30 | the result has no commas and exactly the other characters of the text; a text without commas is unchanged |
| SupportList.RemoveCommasKeepsOrder | src/components/layout/support-list.tsx:29-30 | the removal works piece by piece over concatenation and leaves a subsequence, so the kept characters stay in order |
| SupportList.KeyOf | src/components/layout/support-list.tsx:25-31 | amounts compare as numbers and times as text |
| SupportList.MissingAmountIsZero | src/components/layout/support-list.tsx:29-30 | a missing, empty or unparseable amount counts as 0 |
| SupportList.CommasIgnored | src/components/layout/support-list.tsx:29-30 | two amounts that differ only in commas sort as equal |
| SupportList.LexIrreflexive | src/components/layout/support-list.tsx:33-34 | no text is less than itself |
| SupportList.LexTransitive | src/components/layout/support-list.tsx:33-34 | text order is transitive |
| SupportList.LexTotal | src/components/layout/support-list.tsx:33-34 | of two different texts one is less |
| SupportList.KeyLessAsymmetric | src/components/layout/support-list.tsx:33-34 | keys are never less than each other both ways |
| SupportList.KeyLessTotal | src/components/layout/support-list.tsx:33-35 | two keys of one kind compare equal (the comparator's 0) exactly when they are equal |
| SupportList.KeyLessTransitive | src/components/layout/support-list.tsx:33-34 | key order is transitive |
| SupportList.AheadAsymmetric | src/components/layout/support-list.tsx:33-35 | the comparator never puts two records each ahead of the other |
| SupportList.NotAheadTransitive | src/components/layout/support-list.tsx:33-35 | "not ahead" is transitive, so the comparator is consistent |
| SupportList.Insert | src/components/layout/support-list.tsx:24 | inserting adds exactly the one record |
| SupportList.SortedList | src/components/layout/support-list.tsx:23-37 | the sorted list is a permutation of the copied list |
| SupportList.InsertSorted | src/components/layout/support-list.tsx:24-36 | inserting into a sorted list keeps it sorted |
| SupportList.SortedListSorted | src/components/layout/support-list.tsx:23-37 | the result is sorted by the chosen key and order |
| SupportList.InsertStable | src/components/layout/support-list.tsx:24 | inserting keeps the relative order of records with equal keys |
| SupportList.SortedListStable | src/components/layout/support-list.tsx:23-37 | records with equal keys keep their original order, as `Array.prototype.sort` promises |
| SupportList.AheadKeysDiffer | src/components/layout/support-list.tsx:33-35 | a record is ahead of another only when their keys differ |
| SupportList.DefaultOrderLargestFirst | src/components/layout/support-list.tsx:16-17 | in the default order (amount, descending) the first record has the largest amount |
| Overview.ViewFor | src/components/layout/overview.tsx:12-28 | a spinner exactly while loading with no information, the error view exactly when done with none, and the details whenever information exists |
| Overview.JsRem | src/components/layout/overview.tsx:77 | JavaScript's `%`: smaller than the divisor in size and of the dividend's sign |
| Overview.UptimeDecomposes | src/components/layout/overview.tsx:77 | for a whole number of seconds, hours, minutes and seconds add back up to it with minutes and seconds below 60 |
| Overview.HeapWidth | src/components/layout/overview.tsx:91 | no width (NaN) exactly when both figures are 0; otherwise between 0 and 100: 100 when the system figure is 0 or below the used one, and the used share in percent otherwise |
| Overview.MemoryBarColor | src/components/layout/overview.tsx:155 | red above 85 percent, orange above 65 up to 85, the primary colour otherwise |
| Overview.ColorMonotone | src/components/layout/overview.tsx:155 | more memory used never gives a less severe colour |
| ViteChunks.ManualChunk | vite.config.ts:26-43 | no chunk outside node_modules; otherwise vendor-react for any id with "react", then vendor-editor for "vditor", then vendor-ui for "lucide-react" or "motion", else vendor |
| ViteChunks.LucideContainsReact | vite.config.ts:29-37 | "lucide-react" contains "react" |
| ViteChunks.LucideLandsInReact | vite.config.ts:29-39 | lucide-react goes to vendor-react, never to vendor-ui as the comment above its test suggests |
| ViteChunks.VendorUiIsMotionOnly | vite.config.ts:26-41 | vendor-ui gets exactly the node_modules ids with "motion" and neither "react" nor "vditor" |
| ViteChunks.ManualChunkIconsFirst | vite.config.ts:36-39 | with the icon test first, lucide-react ids go to vendor-ui and every other id where it went before |
| ViteChunks.IconsFirstFillsUi | vite.config.ts:36-39 | vendor-ui then gets the lucide-react ids and the motion ids that name neither "react" nor "vditor" |
| Percent.EncodeUriComponent | src/components/navigation/ProfileButton.tsx:51 | `encodeURIComponent` writes only unreserved characters and percent escapes, never "+" |
| Percent.EncodeRoundTrip | src/components/navigation/ProfileButton.tsx:51 | both percent encoders (form and URI component) are undone by decoding |
| Percent.SerializeParseRoundTrip | src/components/note/markdown-editor.tsx:95-99 | a `URLSearchParams` query parses back to exactly the names and values serialised, in order |
| Percent.SpaceEncodings | src/components/note/markdown-editor.tsx:95-99 | a space is "+" in a `URLSearchParams` query and "%20" under `encodeURIComponent` (ProfileButton.tsx line 51) |
| Percent.PathSeparatorEscaped | src/components/note/markdown-editor.tsx:95-99 | a "/" in a file path is sent as "%2F" |

## Left out

- Network I/O, toasts, dialogs and `console` output are left out. Each request's result is a parameter, and the model returns the dialog or toast text.
- `JSON.parse` of the saved storage ids and `parseFloat` of supporter amounts are parameters. So are the URL and e-mail checks of the Zod schemas: they come in as flags.
- Zod's issue messages are not modelled: an outcome records issue paths only.
- `StorageTypeValue` comes from a file that is not part of this model, so the declared storage types are a parameter. `src/lib/types` is not part of this model either.
- The storage schema's `.default(false)` on `isEnabled` never applies, because the outer `.optional()` passes a missing value through first. `Schemas.StorageEnabled` states exactly that.
- The Git sync schema's retention default of 0 differs from the form's default of 30. Both are modelled as written (`Schemas.GitRetentionDays`, `GitConfigForm.Defaults`).
- `backup-form.tsx` imports `createBackupConfigSchema`, which the schema file does not export. The exported `backupConfigSchema` is modelled as written.
- `formatFileSize` (logarithms and `toFixed`) is left out.
- Date parsing, `toLocaleString` and time zones are left out. Timestamps are whole milliseconds, or nothing for an invalid date.
- Floating point is left out. The memory percentage is a real, so NaN never reaches `Overview.MemoryBarColor`. Uptime is whole seconds, so `Overview.UptimeDecomposes` does not cover fractional uptimes.
- Strings.Lower and ProfileButton.FirstLetter: only ASCII letters change case. `toLowerCase`/`toUpperCase` on other scripts, including `ß` becoming two letters, is not modelled.
- SupportList.LexLess: compares code points, where JavaScript compares UTF-16 code units. The two orders differ only between astral characters and U+E000–U+FFFF.
- ProfileButton.FirstLetter: takes a whole character where `charAt(0)` would take half of an astral character.
- ProfileButton.EscapeChar: a string is a sequence of Unicode scalar values, so lone surrogates (which `JSON.stringify` escapes) cannot occur.
- MarkdownEmbed.Resolve: the link map is a plain map. Keys such as `constructor` inherited from `Object.prototype` are not modelled.
- The Markdown renderer, the CodeMirror editor, the export download and the link/image/code overrides of the note viewer are left out: they are foreign libraries.
- Presentation-only files are left out: navigation rails, layout, background animation, logo, colour scheme switcher, version overview and the app entry points.
- Request wrappers whose only logic is a code-range check are left out: storage, system settings, password change, support list and sync/backup hooks.
- Timers (`setInterval` in the theme provider, the one-second `setTimeout` after a Git run) appear as explicit calls (`ThemeContext.Provider.Tick`, `Paging.HistoryPager.ReloadAfterExecute`).

## Findings

| source | as written | input that shows it | evidently intended | confidence | as-written member | corrected member |
|---|---|---|---|---|---|---|
| src/components/layout/git-automation.tsx:74-81 | after a successful "run now", `loadGlobalHistory(1)` loads page 1 but the page counter keeps its value | history page 2 when a run succeeds: the rows are page 1's while the pager shows page 2, and "previous" loads page 1 again | reset the counter to 1 with the load, as the refresh button does (line 311) | medium, not executed | Paging.HistoryPager.ReloadAfterExecute | Paging.HistoryPager.Reset |
| src/components/layout/git-config-form.tsx:33 | `handleGitSyncValidate` is destructured from `useGitHandle()`, which does not return it (src/components/api-handle/git-handle.ts:209-223); the awaited call at line 200 throws after `setIsValidating(true)` and line 206 never runs | a click on "validate" with any repository URL: no request is sent and cancel, validate and save stay disabled | a validate handler in the hook, and the busy flag cleared in a `finally` | high, not executed | GitConfigForm.ValidateRoundAsWritten | GitConfigForm.ValidateRound |
| vite.config.ts:36-39 | the `lucide-react` test comes after the `react` test, so it can never succeed | any id under `node_modules/lucide-react/` goes to vendor-react | the icons go to vendor-ui with the animation library, as the comment over the test says | medium, not executed | ViteChunks.LucideLandsInReact | ViteChunks.ManualChunkIconsFirst |
