# dnsctl in Dafny

dnsctl keeps a local, git-versioned copy of a Cloudflare DNS zone. It detects drift between
the last synced copy and the live zone, plans the creates, updates and deletes that make
the live zone match the local one, applies the plan with per-record protection, and then
re-syncs and commits. This project models the core of that program and proves what it
promises:

- `Records` (records.dfy) holds the record dictionaries as one `Record` datatype. A key the
  source reads with `.get(k, default)` is an `Option`. It also holds the ledger entries and
  the two record-type constants of `dnsctl/config.py`.
- `DiffEngine` (diff_engine.dfy) covers record identity, semantic equality and `compute_diff`.
  `ComputeDiff` is an imperative method proved equal to the specification function `Diff`.
  The module also holds `is_protected`.
- `DiffProperties` (diff_properties.dfy) holds the lemmas about `Diff`:
  - every id lands in exactly one partition;
  - id-less records are matched by composite key only;
  - swapping the arguments swaps `added` and `removed`;
  - a set compared with itself has no changes.
- `CloudflareClient` (cloudflare_client.dfy) covers the API error message, `sanitize_token`
  (as written and corrected, see Findings), `_normalize_record` and `_to_api_payload`.
- `StateManager` (state_manager.dfy) is the state directory as an in-memory `StateStore` class:
  - zones, config and the protected-record ledger are its fields;
  - `save_zone` skips the rewrite when the hash is unchanged;
  - also modelled: config get/set, export and import with their error cases.
- `GitManager` (git_manager.dfy) is the repository as a `GitRepo` class. Its fields are a
  commit message log and the last committed tree. A manager starts over what the state
  directory already holds: an existing repository or none. `auto_init` adds the initial commit once,
  `commit` makes nothing when the tree is unchanged, and `log` lists the messages newest first.
- `SyncEngine` (sync_engine.dfy) covers plans, their summary and the three planning loops.
  The apply loop is specified as a left fold (`ApplySpec`) over a `Transport` whose answers
  are functions of the requests already sent. The `Engine` class drives store, transport and
  repository, with `DetectDrift`, `GeneratePlan` and `ApplyPlan`.
- `RecordEditor` (record_editor.dfy) covers the record dialog's `validate_record`, with its
  IPv4 and IPv6 patterns, and the record `_on_save` assembles. `RecordEditorExamples` checks
  the values of the repository's validation tests.
- `Text`, `OrderedMap` and `Wrappers` hold the Python string operations, insertion-ordered
  dictionaries, and `Option`/`Result`.

Behaviour of the source worth noting:

- Record equality compares only type, name, content, ttl and proxied, plus priority for MX and
  priority and `data` for SRV. The id and every other field are ignored.
- Records are loose dictionaries, so a record without `content` makes `_to_api_payload` raise
  `KeyError`; the model keeps this error path.
- A save is skipped on equal record hashes alone.

## Model

| member | source | states |
|---|---|---|
| DiffEngine.DiffResult.SummaryParts | core/diff_engine.py:27-36 | there are no parts exactly when nothing was added, removed or modified; each part starts with its sign |
| DiffEngine.DiffResult.Summary | core/diff_engine.py:27-36 | the summary is "No changes" exactly when the diff has no changes |
| DiffEngine.SummaryReportsCounts | core/diff_engine.py:27-36 | each nonzero count appears in the summary as "+n added", "-n removed", "~n modified" |
| DiffEngine.RecordKey | core/diff_engine.py:43-58 | MX keys add the priority (default 0); SRV keys are type, name, priority, port and target without content; all other types key on type, name, content |
| DiffEngine.RecordsEqualFields | core/diff_engine.py:61-80 | two records are equal iff type, name, content, ttl (default 1) and proxied (default false) agree, plus priority for MX and priority and data for SRV |
| DiffEngine.RecordsEqualIgnoresId | core/diff_engine.py:78-80 | equality ignores the id and is reflexive, symmetric and transitive |
| DiffEngine.EqualRecordsShareKey | core/diff_engine.py:43-80 | equal records have the same composite key |
| DiffEngine.PartitionMembers | core/diff_engine.py:105-122 | every record lands in exactly one of the with-id and without-id partitions (an empty id counts as none) |
| DiffEngine.LastBy | core/diff_engine.py:106-122 | the record a dict keeps for a key has that key and comes from the list; none is kept only when no record has that key |
| DiffEngine.PartitionById | core/diff_engine.py:105-122 | the partition loop builds the id dict and the id-less list of the specification |
| DiffEngine.BuildKeyMap | core/diff_engine.py:140-141 | the comprehension loop builds the composite-key dict of the specification |
| DiffEngine.AppendMissing | core/diff_engine.py:135-149 | the loop appends the entries whose key the other dict lacks, in order |
| DiffEngine.MatchById | core/diff_engine.py:124-133 | the id-matching loop produces the unchanged, modified and removed lists of the specification |
| DiffEngine.ComputeDiff | core/diff_engine.py:87-151 | the method's result is exactly the specification `Diff(base, target)` |
| DiffEngine.IndexBySnoc | core/diff_engine.py:108-122 | adding a record to the list assigns it under its key in the dict |
| DiffEngine.WithIdSnoc | core/diff_engine.py:108-113 | adding a record extends exactly one partition |
| DiffEngine.FirstLedgerMatch | core/diff_engine.py:169-173 | the first ledger entry with matching type and name, or none |
| DiffEngine.IsProtected | core/diff_engine.py:158-175 | NS records are system-protected with "System-protected type: NS"; otherwise the first matching ledger entry protects with "User-protected: &lt;reason&gt;" (default "no reason given"); unprotected records have an empty reason |
| DiffProperties.IndexBySpec | core/diff_engine.py:106-122 | a dict built from a list has distinct keys and keeps the last record for each key |
| DiffProperties.IndexByEntry | core/diff_engine.py:106-122 | each dict entry is the last record with its key |
| DiffProperties.IndexByHas | core/diff_engine.py:106-122 | the last record for a key is an entry of the dict |
| DiffProperties.MissingMembers | core/diff_engine.py:135-149 | the missing list holds exactly the values whose key the other dict lacks |
| DiffProperties.MissingIndexed | core/diff_engine.py:140-149 | a record is missing exactly when it is kept under its key in one list and no record of the other list has that key |
| DiffProperties.IdIndexEntry | core/diff_engine.py:106-122 | id dict entries are keyed by the record's own non-empty id |
| DiffProperties.KeyIndexEntry | core/diff_engine.py:140-141 | key dict entries are id-less records keyed by their composite key |
| DiffProperties.ClassifyCover | core/diff_engine.py:124-133 | every base entry is placed according to its target counterpart |
| DiffProperties.ClassifySound | core/diff_engine.py:124-133 | every unchanged, modified or removed entry comes from the base dict |
| DiffProperties.ClassifyDistinct | core/diff_engine.py:124-133 | each list of the id split holds an id at most once |
| DiffProperties.ClassifyRemovedIsMissing | core/diff_engine.py:125-133 | id-matched removals are the base entries whose id the target lacks |
| DiffProperties.ClassifyWithin | core/diff_engine.py:124-133 | when the target holds every base entry, all of them are unchanged |
| DiffProperties.MissingById | core/diff_engine.py:132-137 | an id is removed or added exactly when only one side has it |
| DiffProperties.MissingByKey | core/diff_engine.py:140-149 | an id-less record is removed or added exactly when only one side's key map has its key |
| DiffProperties.IdIndexKeyed | core/diff_engine.py:106-122 | the id dict is keyed by each record's own id and looks up the last record with that id |
| DiffProperties.SplitEntries | core/diff_engine.py:124-133 | each id-matched entry is traced to the base and target records with its id |
| DiffProperties.DiffEntries | core/diff_engine.py:87-151 | unchanged entries are equal to their target counterpart; a modified entry has before = base and after = target with the same id and not equal; removed and added records with an id exist on one side only |
| DiffProperties.DiffCoversIds | core/diff_engine.py:124-137 | every base id is placed according to its target record; every id only the target has is added |
| DiffProperties.DiffPlacesBaseIdOnce | core/diff_engine.py:124-133 | each base id lands in exactly one of unchanged, modified and removed |
| DiffProperties.DiffIdsDistinct | core/diff_engine.py:124-137 | within each part of the diff an id occurs at most once |
| DiffProperties.DiffWithoutIds | core/diff_engine.py:139-149 | id-less records are never unchanged or modified, only added or removed by composite key |
| DiffProperties.DiffSwap | core/diff_engine.py:87-151 | swapping base and target swaps added and removed (order included) and reverses each modification |
| DiffProperties.MissingNone | core/diff_engine.py:135-149 | nothing is missing when the other dict has every key |
| DiffProperties.DiffOfSelf | core/diff_engine.py:87-151 | a set compared with itself has no added, removed or modified entries, so no changes; unchanged holds one record per distinct id; id-less records appear nowhere |
| DiffProperties.WithIdTwice | core/diff_engine.py:105-122 | filtering the id-carrying records again keeps all of them and none lacks an id |
| DiffProperties.WithoutIdTwice | core/diff_engine.py:105-122 | filtering the id-less records again keeps all of them and none has an id |
| DiffProperties.FilterTwice | core/diff_engine.py:105-122 | partitioning a partition changes nothing |
| DiffProperties.DiffSplitsById | core/diff_engine.py:124-149 | the diff is the id-matched diff followed by the composite-key diff of the id-less records |
| CloudflareClient.EntryMessages | dnsctl/core/cloudflare_client.py:28 | one message per error entry, in order |
| CloudflareClient.ApiErrorMessage | dnsctl/core/cloudflare_client.py:25-29 | the message starts with "Cloudflare API error (&lt;status&gt;): " |
| CloudflareClient.ApiErrorMessageMentions | dnsctl/core/cloudflare_client.py:25-29 | the message contains the status code and every entry's message |
| CloudflareClient.Validate | dnsctl/core/cloudflare_client.py:62-72 | the cleaned value is accepted iff it has at least 20 characters from [A-Za-z0-9_-]; rejection says "Token is empty." for the empty value and the format message otherwise |
| CloudflareClient.SanitizeTokenAsWritten | dnsctl/core/cloudflare_client.py:32-72 | whatever it returns matches the token pattern |
| CloudflareClient.CheckCleanedAsWritten | dnsctl/core/cloudflare_client.py:47-72 | whatever it returns matches the token pattern |
| CloudflareClient.SanitizeToken | dnsctl/core/cloudflare_client.py:32-72 | the corrected sanitizer: whatever it returns matches the token pattern |
| CloudflareClient.CheckCleaned | dnsctl/core/cloudflare_client.py:47-72 | the corrected header step: whatever it returns matches the token pattern |
| CloudflareClient.TokenCharsNoHeader | dnsctl/core/cloudflare_client.py:48-52 | a string of token characters holds no "Bearer " and does not start with "curl " |
| CloudflareClient.TokenCharKept | dnsctl/core/cloudflare_client.py:40-60 | token characters are neither blanks nor quotes |
| CloudflareClient.StripNoop | dnsctl/core/cloudflare_client.py:40-60 | stripping blanks or quotes leaves a token-bounded string alone |
| CloudflareClient.FinalStripOfTokenChars | dnsctl/core/cloudflare_client.py:60 | the final strip leaves token characters alone |
| CloudflareClient.UnquoteOfToken | dnsctl/core/cloudflare_client.py:40-45 | outer stripping and unquoting leave a valid token alone |
| CloudflareClient.SanitizeKeepsToken | dnsctl/core/cloudflare_client.py:32-72 | the corrected sanitizer returns a valid token unchanged |
| CloudflareClient.SanitizeTokenIdempotent | dnsctl/core/cloudflare_client.py:32-72 | sanitizing what the corrected sanitizer returned gives the same result |
| CloudflareClient.SanitizeAsWrittenKeepsToken | dnsctl/core/cloudflare_client.py:32-72 | as written, a valid token without "Bearer" is returned unchanged |
| CloudflareClient.SanitizeAsWrittenMangles | dnsctl/core/cloudflare_client.py:48-51 | as written, a valid token containing "Bearer" loses its first six characters and is not returned unchanged |
| CloudflareClient.CleanedTokenMangled | dnsctl/core/cloudflare_client.py:48-51 | the header step alone slices from index 6 when there is no "Bearer " |
| CloudflareClient.TokenTailStrips | dnsctl/core/cloudflare_client.py:51-60 | the sliced tail of a token survives the strips |
| CloudflareClient.TokenCharsTail | dnsctl/core/cloudflare_client.py:19 | a suffix of token characters is token characters |
| CloudflareClient.MangledTokenExample | dnsctl/core/cloudflare_client.py:48-51 | "Bearer" followed by twenty zeros is a valid token, yet as written it yields only the twenty zeros |
| CloudflareClient.HeaderContainsBearer | dnsctl/core/cloudflare_client.py:48 | a string with "Bearer " contains "Bearer" |
| CloudflareClient.SanitizeRejectsCurl | dnsctl/core/cloudflare_client.py:52-57 | input starting with "curl " (any case) and without "Bearer" is rejected with the curl message, by both sanitizers |
| CloudflareClient.LastHeaderAt | dnsctl/core/cloudflare_client.py:50 | the last "Bearer " is the one before a space-free rest |
| CloudflareClient.FinalStripOfQuotedTail | dnsctl/core/cloudflare_client.py:60 | the final strip removes a trailing double quote after a token |
| CloudflareClient.HeaderTailOfHeader | dnsctl/core/cloudflare_client.py:48-51 | the text after the last "Bearer " is the token and its tail |
| CloudflareClient.SanitizeExtractsBearer | dnsctl/core/cloudflare_client.py:32-72 | a pasted header or curl command with "Bearer &lt;token&gt;" (optionally followed by a quote) yields the token, as written and corrected |
| CloudflareClient.CleanedHeaderYieldsToken | dnsctl/core/cloudflare_client.py:47-72 | the header step and validation yield the token after "Bearer " |
| CloudflareClient.NormalizeRecord | dnsctl/core/cloudflare_client.py:241-265 | a record without id or content fails with the `KeyError` text of the first missing key; otherwise it is normalized |
| CloudflareClient.NormalizeRecordSpec | dnsctl/core/cloudflare_client.py:241-265 | normalization keeps id, type, name and content, fills ttl 1 and proxied false, priority (default 0) only for MX and SRV, and full SRV data whose priority defaults to the record's |
| CloudflareClient.ToApiPayload | dnsctl/core/cloudflare_client.py:268-282 | no content raises the `'content'` error; proxied only for A, AAAA and CNAME; priority (default 10) only for MX; data only for SRV; ttl default 1 |
| CloudflareClient.PayloadIgnoresId | dnsctl/core/cloudflare_client.py:268-282 | the payload never depends on the id |
| CloudflareClient.PayloadOfNormalized | dnsctl/core/cloudflare_client.py:241-282 | a normalized record always has a payload, carrying its type, name, content and ttl |
| StateManager.LoadFrom | core/state_manager.py:58-63 | nothing is loaded exactly for a zone never saved |
| StateManager.SaveZoneSpec | core/state_manager.py:66-90 | after a save the zone loads as the returned state, its hash is the records' hash, and no other zone changes |
| StateManager.SaveSkipsUnchangedRecords | core/state_manager.py:74-79 | with an equal stored hash the existing state is returned and nothing is written |
| StateManager.SaveWritesNewState | core/state_manager.py:81-90 | otherwise the new state holds the given id, name, records, time and hash |
| StateManager.SaveIdempotent | core/state_manager.py:66-90 | saving the same records again, with any id and time, changes nothing |
| StateManager.SavePreservesWellFormed | core/state_manager.py:66-90 | saving keeps every stored zone's hash equal to the hash of its records |
| StateManager.ConfigOf | core/state_manager.py:104-107 | a missing config file reads as the empty config |
| StateManager.SetConfigSetsOnlyKey | core/state_manager.py:110-113 | setting a key stores its value and keeps every other key |
| StateManager.CheckImport | core/state_manager.py:151-165 | an import is accepted iff the file parses, zone id and name are non-empty and records is a list; each failure gives its own message, in the source's order |
| StateManager.StateStore.constructor | core/state_manager.py:58-113 | a fresh store has no zones, no config file and an empty ledger |
| StateManager.StateStore.SaveZone | core/state_manager.py:66-90 | the store's zones and returned state are those of `SaveZoneSpec`; config and ledger are untouched |
| StateManager.StateStore.ListSyncedZones | core/state_manager.py:93-97 | every synced zone name once, in increasing order |
| StateManager.StateStore.SetConfig | core/state_manager.py:110-113 | the config becomes the old one with the key set; zones and ledger are untouched |
| StateManager.StateStore.ExportZone | core/state_manager.py:130-140 | fails with "Zone '&lt;name&gt;' has not been synced yet." exactly for a zone never synced, otherwise gives the stored state |
| StateManager.StateStore.ImportZone | core/state_manager.py:143-167 | a rejected file changes nothing and returns its error; an accepted one is saved as `save_zone` would |
| GitManager.CommitLog | core/git_manager.py:24-65 | a commit adds at most one entry after the initial one, and adds none exactly when the tree equals the last committed one; otherwise the new entry is the message |
| GitManager.InitLogIdempotent | core/git_manager.py:24-37 | opening an existing repository adds no second initial commit |
| GitManager.CommitTwiceCommitsOnce | core/git_manager.py:49-65 | committing the same tree twice makes one commit |
| GitManager.GitRepo.constructor | core/git_manager.py:16-18 | a new manager sits over whatever the state directory holds: an existing repository with its log and last tree, or none |
| GitManager.GitRepo.AutoInit | core/git_manager.py:24-37 | the repository exists afterwards, with the initial commit added only if it was missing |
| GitManager.GitRepo.Commit | core/git_manager.py:49-65 | the log becomes `CommitLog`; the result is none when nothing changed and the new commit otherwise |
| GitManager.GitRepo.Log | core/git_manager.py:71-85 | at most `max_count` stripped messages, newest first |
| SyncEngine.CountKind | dnsctl/core/sync_engine.py:48-50 | a count never exceeds the number of actions |
| SyncEngine.CountKindsSum | dnsctl/core/sync_engine.py:48-50 | creates, updates and deletes add up to all actions |
| SyncEngine.CountKindAppend | dnsctl/core/sync_engine.py:48-50 | counting distributes over concatenation |
| SyncEngine.CountKindUniform | dnsctl/core/sync_engine.py:48-50 | a run of one kind counts fully for that kind and not at all for others |
| SyncEngine.Plan.SummaryParts | dnsctl/core/sync_engine.py:46-58 | there are no parts exactly when the plan has no actions |
| SyncEngine.Plan.Summary | dnsctl/core/sync_engine.py:38-58 | the summary is "No changes" exactly when the plan has no actions |
| SyncEngine.PlanSummaryReportsCounts | dnsctl/core/sync_engine.py:46-58 | each nonzero count appears as "+n create", "~n update", "-n delete" |
| SyncEngine.PlanActions | dnsctl/core/sync_engine.py:135-158 | a create per added record, then a delete per removed record, then an update per modification with record = after and before = before, each with its protection status |
| SyncEngine.PlanFor | dnsctl/core/sync_engine.py:117-165 | a plan exists exactly when listing succeeded, for the given zone and its stored id |
| SyncEngine.PlanActionCounts | dnsctl/core/sync_engine.py:132-158 | creates = added, updates = modified, deletes = removed; the plan has actions exactly when the diff has changes |
| SyncEngine.CountSegment | dnsctl/core/sync_engine.py:137-158 | the count over the three loops' segments |
| SyncEngine.CountSegments | dnsctl/core/sync_engine.py:137-158 | each segment contributes its own length to its kind |
| SyncEngine.PlanActionAnnotations | dnsctl/core/sync_engine.py:137-158 | every action carries `is_protected` of its record; every update's before/record pair is a modification of the diff |
| SyncEngine.PlanOfZone | dnsctl/core/sync_engine.py:117-165 | actions come from diff(remote, local), changes iff that diff has changes, drift is diff(local, remote), whose removed and added are the created and deleted records |
| SyncEngine.PlanOfZoneInSync | dnsctl/core/sync_engine.py:117-165 | remote equal to the synced records gives an empty "No changes" plan without drift |
| SyncEngine.Transport.constructor | dnsctl/core/cloudflare_client.py:82-87 | a new client has sent nothing |
| SyncEngine.Transport.CreateRecord | dnsctl/core/cloudflare_client.py:209-215 | without content it fails with the `KeyError` text and sends nothing; otherwise it sends one create request and reports the API's answer |
| SyncEngine.Transport.UpdateRecord | dnsctl/core/cloudflare_client.py:217-228 | same for one update request |
| SyncEngine.Transport.DeleteRecord | dnsctl/core/cloudflare_client.py:230-234 | sends one delete request and reports the API's answer |
| SyncEngine.DecideGuards | dnsctl/core/sync_engine.py:181-210 | an unforced protected action is refused with "Protected (&lt;reason&gt;). Use --force to override."; force removes protection; an update uses before's id, else the record's; a missing id refuses updates and deletes; a create is sent iff it has content |
| SyncEngine.ApplyShape | dnsctl/core/sync_engine.py:179-217 | one outcome per action; succeeded and failed are the actions with each outcome in plan order; refused actions fail with their message; the requests sent are those of the actions not refused, and no failure stops the loop |
| SyncEngine.SentOutcome | dnsctl/core/sync_engine.py:189-217 | an action whose request is sent is succeeded exactly when the API accepts that request, given the requests sent before it, and otherwise failed with the API's error text |
| SyncEngine.LastSentOutcome | dnsctl/core/sync_engine.py:189-217 | the last action, when its request is sent, takes its outcome from the API's answer to that request |
| SyncEngine.ApplySpecKeepsOutcomes | dnsctl/core/sync_engine.py:179-217 | handling one more action never changes the outcomes of the actions before it |
| SyncEngine.PartitionSizes | dnsctl/core/sync_engine.py:61-70 | each action is succeeded or failed, never both |
| SyncEngine.AllSucceededIff | dnsctl/core/sync_engine.py:68-70 | `all_succeeded` holds exactly when every action succeeded |
| SyncEngine.NoCallForProtected | dnsctl/core/sync_engine.py:181-187 | without force, no request is sent for a protected action |
| SyncEngine.BuildActions | dnsctl/core/sync_engine.py:135-158 | the three loops build exactly `PlanActions` |
| SyncEngine.Engine.constructor | dnsctl/core/sync_engine.py:81-83 | the engine works on the given store, client and repository |
| SyncEngine.Engine.DetectDrift | dnsctl/core/sync_engine.py:89-104 | none for an unsynced zone; otherwise diff(local, remote), or the listing error |
| SyncEngine.Engine.GeneratePlan | dnsctl/core/sync_engine.py:110-165 | "Zone '&lt;name&gt;' not synced. Run sync first." for an unsynced zone; otherwise `PlanFor` of the stored records, the listing and the ledger |
| SyncEngine.Engine.ApplyPlan | dnsctl/core/sync_engine.py:171-231 | result and requests are `ApplySpec`; a failing re-list changes neither store nor repository; otherwise the zone is saved from the listing and committed with "Applied changes to &lt;zone&gt; (&lt;summary&gt;)" |
| RecordEditor.Split | gui/controllers/record_editor_controller.py:17-20 | at least one piece, none containing the separator |
| RecordEditor.JoinSplit | gui/controllers/record_editor_controller.py:17-20 | joining the pieces with the separator gives the string back |
| RecordEditor.SplitWithoutSep | gui/controllers/record_editor_controller.py:17-20 | a string without the separator is one piece |
| RecordEditor.SplitPiece | gui/controllers/record_editor_controller.py:17-20 | splitting after a separator-free first piece |
| RecordEditor.SplitJoin | gui/controllers/record_editor_controller.py:17-20 | separator-free pieces are what splitting their join gives |
| RecordEditor.ThreeDigitValue | gui/controllers/record_editor_controller.py:18-19 | the value of three digits |
| RecordEditor.TwoDigitValue | gui/controllers/record_editor_controller.py:18-19 | the value of two digits |
| RecordEditor.OneDigitValue | gui/controllers/record_editor_controller.py:18-19 | the value of one digit |
| RecordEditor.OctetPatternIff | gui/controllers/record_editor_controller.py:18-19 | the octet alternatives accept exactly 1 to 3 digits worth at most 255 |
| RecordEditor.IsIPv4Iff | gui/controllers/record_editor_controller.py:17-20 | four dot-separated octets is exactly the regular expression's language |
| RecordEditor.IPv4IsNotIPv6 | gui/controllers/record_editor_controller.py:17-21 | a valid IPv4 address is never valid IPv6 content |
| RecordEditor.ContentTestsMatchRegex | gui/controllers/record_editor_controller.py:39-42 | on stripped content, Python's `$` (which allows a final newline) changes nothing, so the tests decide the patterns |
| RecordEditor.ValidateRecord | gui/controllers/record_editor_controller.py:24-44 | valid iff the type is supported, trimmed name and content are non-blank, and A/AAAA content has the address form; each error is returned exactly when every earlier check passed and its own failed |
| RecordEditor.MessagesInformative | gui/controllers/record_editor_controller.py:30-42 | every error message is non-empty; the address errors mention IPv4/IPv6; the type error starts with "Unsupported" |
| RecordEditor.ValidateIgnoresOtherFields | gui/controllers/record_editor_controller.py:24-44 | id, ttl, proxied, priority and data never affect validation |
| RecordEditor.OtherTypesAcceptAnyContent | gui/controllers/record_editor_controller.py:39-44 | for CNAME, MX, TXT and SRV any non-blank content is valid |
| RecordEditor.QualifyName | gui/controllers/record_editor_controller.py:129-132 | the name is unchanged if empty, ending with the zone string or ending with "."; otherwise "." and the zone are appended |
| RecordEditor.QualifiedNameEnds | gui/controllers/record_editor_controller.py:129-132 | a non-empty qualified name ends with the zone or with "." |
| RecordEditor.QualifyIdempotent | gui/controllers/record_editor_controller.py:129-132 | qualifying twice is qualifying once |
| RecordEditor.QualifyNoDotBoundary | gui/controllers/record_editor_controller.py:129-132 | "myexample.com" counts as ending with "example.com"; "www" becomes "www.example.com"; "host." stays |
| RecordEditor.BuildRecord | gui/controllers/record_editor_controller.py:125-147 | trimmed content, qualified trimmed name, proxied false outside A/AAAA/CNAME, priority only for MX and SRV, no SRV data, and on an edit the existing id |
| RecordEditor.Save | gui/controllers/record_editor_controller.py:121-155 | the built record is the result when it validates; otherwise the validation error is shown |
| RecordEditor.TrimNonBlank | gui/controllers/record_editor_controller.py:126 | stripping keeps a string that starts with a non-blank |
| RecordEditor.QualifiedNameBlank | gui/controllers/record_editor_controller.py:126-132 | qualification neither creates nor removes a blank name |
| RecordEditor.SaveAcceptsIff | gui/controllers/record_editor_controller.py:121-155 | the dialog accepts exactly when the type is supported, the trimmed fields are non-blank and A/AAAA content has the address form, whatever the zone, ttl, toggles or edited record |
| RecordEditor.SaveKeepsIdentity | gui/controllers/record_editor_controller.py:145-147 | an edit keeps the existing id; a new record has none |
| RecordEditorExamples.DottedQuad | gui/controllers/record_editor_controller.py:17-21 | "1.2.3.4" is IPv4 and not IPv6 |
| RecordEditorExamples.WordIsNotIPv4 | gui/controllers/record_editor_controller.py:17-20 | "not-an-ip" is not IPv4 |
| RecordEditorExamples.HexGroupsAreIPv6 | gui/controllers/record_editor_controller.py:21 | "2001:db8::1" is IPv6 |
| RecordEditorExamples.OctetAbove255 | gui/controllers/record_editor_controller.py:17-20 | "256.0.0.1" is not IPv4 |
| RecordEditorExamples.NsUnsupported | gui/controllers/record_editor_controller.py:32-33 | an NS record is rejected as an unsupported type |
| Text.StripLeft | dnsctl/core/cloudflare_client.py:40 | `lstrip` removes exactly the longest removable prefix |
| Text.StripRight | dnsctl/core/cloudflare_client.py:40 | `rstrip` removes exactly the longest removable suffix |
| Text.Strip | dnsctl/core/cloudflare_client.py:40 | the result neither starts nor ends with a removable character, and a string with none at its ends is unchanged |
| Text.StripIdempotent | dnsctl/core/cloudflare_client.py:60 | stripping twice is stripping once |
| Text.RFind | dnsctl/core/cloudflare_client.py:50 | the highest occurrence of the substring, or -1 exactly when it does not occur |
| Text.JoinContainsPart | dnsctl/core/cloudflare_client.py:28 | every part can be found in the joined string |
| Text.NatToStringRoundTrip | core/diff_engine.py:31-35 | the decimal form of a count reads back as the count |
| Text.SortedNames | core/state_manager.py:97 | every name once, in increasing order |
| OrderedMap.LookupPut | core/diff_engine.py:108-122 | a dict assignment makes the key map to the new value and leaves other keys alone |

## Left out

- Network transport is left out: `CloudflareClient._request` with its retry loop, sleeps and
  float backoff; `_headers`; pagination in `list_zones` and `list_records`; `verify_token`.
  What the engine sees of the API is `Transport`: a listing function and a response function
  of the requests already sent. How listing normalizes records is folded into that function.
- The API token is not modelled. Every engine operation takes it and passes it to the client,
  and the transport does not depend on it.
- `core/security.py` is left out: AES-GCM, PBKDF2, the OS keyring and session expiry by
  floating-point time.
- The `StateStore.hash` function stands for SHA-256 and its deterministic JSON serialisation.
  Only its determinism is used. Two distinct record lists with one hash would skip a save.
- Files and directories (`init_state_dir`, `_zone_path`, JSON encoding, reading and writing)
  become the store's fields. `load_protected_records` is not part of this model: its source
  is not available, so the ledger is a store field that the modelled operations only read.
- `StateManager.CheckImport`: JSON values other than strings and lists are not modelled.
  A non-string `zone_id`/`zone_name`, non-dict record elements, and a top-level value that
  is not a dict (as well as decoding errors) all collapse into `Unreadable`.
- GitPython internals, staging, `.gitignore`, SHAs, authors and dates are left out. The
  repository is a message log plus the last committed tree, and a commit's SHA is its
  position in the log. The git `rollback` and `show_file_at` operations are not in the
  available source and are not modelled.
- `Records.Record` holds only the keys the modelled code reads, and its `data` only the
  seven SRV keys. Other top-level keys and other `data` keys, which records from
  `import_zone` may carry, are not represented. In the source `_comparable` compares the
  whole `data` dict and `save_zone` hashes every key. So two imported lists that differ only
  in such a key are two states there, and both are written. In the model they are one
  value, and the second save is skipped.
- `StateManager.ConfigValue` has no floating-point numbers. `set_config` accepts any JSON
  value, and a JSON float is not modelled.
- A log entry keeps only the stripped message, not its sha, author or date.
- `SyncEngine.Engine.ApplyPlan`: besides a failing listing, exceptions from `save_zone` or git
  are not modelled. The store and repository are in-memory and cannot fail.
- The `create_record`/`update_record` return value (the normalized record) is not used by
  the engine and is not modelled.
- The remote zone's response to a write is not modelled beyond what the listing and response
  functions say about the requests sent.
- `Text.IsSpace` follows Python's `str.isspace` for the listed code points.
- `CloudflareClient.AsciiLower` lower-cases ASCII letters only. Python's `str.lower()` is
  Unicode-aware, so "CURL " with non-ASCII case variants is not modelled.
- `RecordEditor.IsIPv4` reads `\d` as ASCII 0-9. Python 3's `\d` in a `str` pattern also
  accepts other Unicode decimal digits, so an address written in such digits passes the
  source but not the model.
- The record dialog's widget wiring (`setup`, `_on_type_changed` with its placeholder hints,
  `_populate_from_record`) is left out. It only sets Qt widgets, and the form's widget
  ranges live in a UI file that is not available; `_on_save` is modelled from the field
  values onward.
- The CLI (`dnsctl/cli/main.py`, `cli/main.py`) and the other GUI controllers are wiring and
  formatting over the modelled core, and are left out.
- Logging is left out.

## Findings

| source | as written | input that shows it | evidently intended | confidence | as-written member | corrected member |
|---|---|---|---|---|---|---|
| dnsctl/core/cloudflare_client.py:48-51 | The header branch runs when "Bearer" occurs, but slices after `rfind("Bearer ")`. With no "Bearer " present, `rfind` gives -1 and the slice starts at index 6, dropping the first six characters. | `"Bearer00000000000000000000"` matches the token pattern, but the result is `"00000000000000000000"`; a valid token containing "Bearer" is never returned intact | take the text after the last "Bearer " only when "Bearer " occurs, so a valid token is returned unchanged and sanitizing is idempotent. The correction also changes other inputs that hold "Bearer" but not "Bearer ": `"Bearer\t<token>"`, which the code as written accepts (slice from 6, then strip), becomes a format error, and a pasted `curl ... Bearer\t...` is rejected as a curl command instead of going through the header branch | not executed; the slice arithmetic is certain, the intent is inferred from the comment on line 49 | CloudflareClient.SanitizeAsWrittenMangles, CloudflareClient.MangledTokenExample | CloudflareClient.SanitizeToken, CloudflareClient.SanitizeKeepsToken, CloudflareClient.SanitizeTokenIdempotent |
