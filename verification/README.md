# WhatsApp bot command engine — a Dafny model

This project models the command engine of a WhatsApp bot written in
JavaScript. An incoming message travels through the following stages:

- **Filter and parse.** The message event handler filters the message, reads
  its text and sender, and normalises the command line. It splits the line
  into a lower-cased command name and its arguments. It starts the command
  system on the first command and turns the registry's result into a reply.
- **Resolve.** The command registry holds three maps (name to command, alias
  to name, name to category). It resolves a name through the aliases first.
- **Gate.** Each command descriptor checks permission, then chat type, then
  a per-sender cooldown. It stamps the caller before the handler runs.
- **Decide the tier.** The permission resolver gives the caller's tier
  (`super-user`, `admin` or `user`) by a fixed ladder. It caches group-admin
  verdicts for five minutes.

The model also covers these commands:

- `$list`, `$help`, `$admin`, `$msg`, `$msgall` and `$reload`;
- the file watcher that reloads command files;
- the small conversational core: the ignore, greeting, help and media
  classification and the order `processMessage` applies them in;
- the bounded per-chat history and the number whitelist of the plain chat
  front end;
- the file-suffix to MIME-type table.

Three of these parts are not reached from the bot's entry point, and are
modelled as written all the same:

- src/commands/autoreload.js only exports `createAutoReloader`; nothing in the
  source calls it, so the file watcher never starts.
- src/core/core.js and src/interface/whatsapp/whatsapp.js are CommonJS
  modules (`require`, `module.exports`) in an ES-module code base. main.js
  starts src/interface/whatsapp/client.js, which imports only the command
  message handler (src/interface/whatsapp/events/message.js), so neither
  file is loaded by the running bot.

Everything is immutable data and pure functions with an explicit `now`. The
three loops the source's results are counted by are methods whose loop
invariants tie them to functional definitions:

- `Help.CountCommands`
- `MsgAll.Broadcast`
- `Reload.FullReload`

The socket, the module loader, the group-metadata lookup, the AI service and
Unicode NFKC normalisation are parameters (oracles):

| oracle | parameter |
|---|---|
| module loader | `Loading.Loader` |
| group-metadata lookup | `Permissions.Metadata` |
| socket lookups for `$msg` | `Msg.Network` |
| socket lookups for `$msgall` | `MsgAll.Network` |
| AI service | `ai: string -> Option<string>` |
| Unicode NFKC normalisation | `nfkc` |
| the greeting the source picks at random | an index `pick` |

Files, one module each:

| file | models |
|---|---|
| `wrappers.dfy` | `Option` |
| `jsstring.dfy` | the JavaScript string operations the source uses: `trim`, `split(/\s+/)`, `includes`, `startsWith`, `endsWith`, first-match `replace`, `split(c)[0]`, ASCII `toLowerCase`, UTF-16 length, decimal `parseInt`, `slice(0, n).join` with an "... and k more" line |
| `grouping.dfy` | grouping into an insertion-ordered object of arrays (`result[key].push(v)`) |
| `command.dfy` | `createCommand` and its `execute` gate (src/components/cmd/base-command.js) |
| `registry.dfy` | `createCommandHandler` and `createHandlerContext` (src/components/cmd/command-handler.js, base-command.js) |
| `permissions.dfy` | `createUserPermissionChecker` (src/components/cmd/user-permissions.js) |
| `loading.dfy` | the command-file filter and the loading loop shared by start-up and reload |
| `dispatch.dfy` | `handleMessage` and its helpers (src/interface/whatsapp/events/message.js) |
| `reload.dfy` | src/commands/autoreload.js and src/commands/reload.js |
| `list.dfy`, `help.dfy`, `admin.dfy`, `msg.dfy`, `msgall.dfy` | the commands of the same names |
| `core.dfy` | src/core/core.js |
| `whatsapp.dfy` | the message handler of src/interface/whatsapp/whatsapp.js |
| `contenttype.dfy` | src/utils/getContentType.js |

Conventions:

- A missing JavaScript string field is the empty string. The source only
  tests such fields for truthiness.
- A JavaScript `Map` or plain object whose key order matters is a sequence of
  keys beside a Dafny `map`.
- A thrown `Error` is a value of a result datatype.

Where the code is evidently wrong (see "## Findings"), the code as written
and the corrected behaviour are separate, named members: the media test
(`Core.MediaTest`), the chat front end (`WhatsApp.Variant`), the `$list`
no-match reply (`List.Run` and `List.RunCorrected`), the MIME lookup
(`ContentType.GetContentTypeAsWritten` and `ContentType.GetContentType`) and
the registry `$reload` acts on (`Reload.GLOBAL_HANDLER` and
`Reload.RunWithHandler`).

Three behaviours of the code are worth stating up front:

- **Handler errors.** The reply is the error's own message
  (src/components/cmd/command-handler.js:67-70).
- **Register then unregister.** This clears the name and its aliases only
  when no alias is itself the name of another command and the name is not
  another command's alias. `Registry.RegisterThenUnregister` carries those
  conditions.
- **The file watcher.** It re-registers nothing, because the require-cache
  clearing raises first; see "## Findings".

## Model

| member | source | states |
|---|---|---|
| Command.CreateCommand | src/components/cmd/base-command.js:11-21 | Each field of the descriptor is the option when given and the default otherwise, and the cooldown table starts empty |
| Command.DefaultDescriptor | src/components/cmd/base-command.js:11-21 | With no options a command has no aliases, cooldown 0, permissions ["user"], category "general" and chat type "both" |
| Command.Remaining | src/components/cmd/base-command.js:63-66 | The "Wait" seconds are the ceiling of the remaining milliseconds over 1000, and never exceed the cooldown once the clock has reached the stamp |
| Command.Check | src/components/cmd/base-command.js:49-68 | A tier outside the permissions is refused with the "Requires" text before the chat type is looked at. A wrong chat type is refused next. The caller is admitted exactly when permission, chat type and cooldown all pass, and admission returns the descriptor with the caller stamped |
| Command.AdmitStampsOnlyCaller | src/components/cmd/base-command.js:30-35 | Admission changes nothing but the caller's stamp: it is set to now when the cooldown is positive and untouched otherwise, and every other sender's entry is kept |
| Command.NoCooldownNeverBlocks | src/components/cmd/base-command.js:23-24 | A command with cooldown 0 or less never blocks anyone |
| Command.CooldownCycle | src/components/cmd/base-command.js:23-28 | After an admission at t the same sender is refused up to and including t + cooldown·1000 ms and admitted strictly after it |
| Registry.AddAliases | src/components/cmd/command-handler.js:10 | Every listed alias maps to the name and every other alias keeps its target |
| Registry.Register | src/components/cmd/command-handler.js:8-13 | The name and category maps gain the command under its name. Its aliases point to it and no alias is removed, so old aliases survive a re-registration. The registry invariant is kept |
| Registry.Without | src/components/cmd/command-handler.js:20 | Removing a name from the key order keeps every other key and keeps the order duplicate-free |
| Registry.Unregister | src/components/cmd/command-handler.js:15-34 | An absent name gives false and changes nothing. A present one is removed from the name and category maps together with exactly the aliases that targeted it, every other entry is unchanged, and the result is true |
| Registry.Clear | src/components/cmd/command-handler.js:36-43 | All three maps end empty and the result is the number of commands there were |
| Registry.Get | src/components/cmd/command-handler.js:45-48 | The lookup goes through the alias map first and falls back to the name itself, and in a consistent registry the command found carries the name it resolved to |
| Registry.RegisterThenGet | src/components/cmd/command-handler.js:8-13 | After registering a command each of its aliases finds it, and so does its name unless that name is itself an alias |
| Registry.ReRegisterKeepsOldAliases | src/components/cmd/command-handler.js:9-11 | Re-registering a name without an alias it used to have leaves that alias pointing to the name |
| Registry.AliasLastWriterWins | src/components/cmd/command-handler.js:10 | When two commands claim one alias, the one registered later gets it, and the first is still found by its own name |
| Registry.OwnNameStillFinds | src/components/cmd/command-handler.js:45-48 | Registering another command does not hide a command's own name unless that name becomes an alias |
| Registry.RegisterThenUnregister | src/components/cmd/command-handler.js:15-34 | Registering a command and unregistering it again succeeds, and afterwards neither its name nor any of its aliases finds anything |
| Registry.ClearCountsOrder | src/components/cmd/command-handler.js:37 | The count returned by clear is the number of registered names in insertion order |
| Registry.Execute | src/components/cmd/command-handler.js:50-71 | An unresolvable name gives null and leaves the registry alone. Otherwise the gate decides: a refusal becomes the reply text. An admitted call stores the stamped descriptor, and its result is the handler's text or the message of the error it raised. Execute never fails |
| Registry.NotFoundIgnoresTier | src/components/cmd/command-handler.js:51-52 | For an unresolvable name the outcome does not depend on the caller's tier, since it is decided before the tier is looked up |
| Registry.Visible | src/components/cmd/base-command.js:126-131 | A command is listed exactly when its permissions contain the tier and its chat type is "both" or the requested one |
| Registry.ListForUser | src/components/cmd/base-command.js:123-151 | The listing's categories are distinct and non-empty, and its entries are exactly the visible commands |
| Registry.ListForUserExact | src/components/cmd/base-command.js:123-151 | Every listed entry describes an eligible command under that command's category, every eligible command is listed under its category, and the total is the number of eligible commands |
| Registry.CategoryPairs | src/components/cmd/base-command.js:173-174 | The pairs walked by stats are the category entries of the given names |
| Registry.Keys | src/components/cmd/base-command.js:190 | The key list of a grouping is its categories, in order |
| Registry.GetCategories | src/components/cmd/base-command.js:153-157 | The category list has no duplicates and holds exactly the categories in use |
| Registry.CommandsInCategory | src/components/cmd/base-command.js:159-167 | The commands of a category are exactly the registered commands whose category (default "general") is that one |
| Registry.Counts | src/components/cmd/base-command.js:174 | The per-category counts are the sizes of the category groups, in order |
| Registry.SumCountsIsTotal | src/components/cmd/base-command.js:173-174 | The per-category counts add up to the number of grouped commands |
| Registry.StatEntries | src/components/cmd/base-command.js:175-183 | Stats lists at most one entry per category entry, skipping names without a command |
| Registry.GetStats | src/components/cmd/base-command.js:169-192 | The total is the number of commands. In a consistent registry the per-category counts sum to it and one entry is listed per command. The categories are those getCategories gives |
| Registry.CategoryPairsOfValid | src/components/cmd/base-command.js:173-184 | When every name has a category and a command, each name gives exactly one pair |
| Registry.StatEntriesOfValid | src/components/cmd/base-command.js:176-183 | When every category entry has a command, none is skipped |
| Grouping.GroupBy | src/components/cmd/base-command.js:133-147 | Grouping entries by key gives distinct non-empty groups holding exactly the entries |
| Grouping.GroupByTotal | src/components/cmd/base-command.js:133-147 | The groups together hold as many entries as were grouped |
| Permissions.NewChecker | src/components/cmd/user-permissions.js:12-28 | A new checker has no host, no cached verdicts and the saved admin list, or an empty list when none could be read |
| Permissions.CleanJid | src/components/cmd/user-permissions.js:83-84 | The cleaned id is the prefix before the first ':' and is the id itself exactly when it has no ':' |
| Permissions.CleanJidIdempotent | src/components/cmd/user-permissions.js:83-84 | Cleaning a cleaned id changes nothing |
| Permissions.SetHostAccount | src/components/cmd/user-permissions.js:31-35 | The host becomes the part of the id before its first ':' (the whole id when there is none), and nothing else changes |
| Permissions.CacheKeyInjective | src/components/cmd/user-permissions.js:41 | For user ids without '-', distinct group/user pairs never share a cache key |
| Permissions.SeparatorIsLastDash | src/components/cmd/user-permissions.js:41 | For a user id without '-', the separator of the cache key is its last '-' |
| Permissions.FindParticipant | src/components/cmd/user-permissions.js:48 | The participant found is the first with the id, and none is found exactly when no participant has it |
| Permissions.IsGroupAdmin | src/components/cmd/user-permissions.js:38-61 | A live cached verdict is returned as it is. A failing lookup gives false and caches nothing. Otherwise the verdict is whether the participant's role is "admin" or "superadmin", and it is cached under the group-user key |
| Permissions.CachedVerdictRepeats | src/components/cmd/user-permissions.js:42-44 | Within five minutes of a lookup the same verdict comes back from the cache, whatever the metadata now says |
| Permissions.VerdictExpires | src/components/cmd/user-permissions.js:53-54 | Five minutes after a lookup the cached verdict no longer answers: the next lookup, under any metadata, gives the verdict it would have given had the first lookup never happened (and the same cache when the metadata can be fetched), and a failed fetch then answers false |
| Permissions.GetUserType | src/components/cmd/user-permissions.js:64-109 | The tier is one of the three. It is super-user exactly for own messages and senders equal to the host after cleaning. It is admin exactly when not super-user and the raw or cleaned sender is listed, or the chat is a group whose metadata names the sender an admin. Only the group lookup touches the cache, and the checker it returns is the one returned with the tier, so its cached verdict answers the sender's next message |
| Permissions.HostAccountIsSuperUser | src/components/cmd/user-permissions.js:77-89 | Once the host account is set, a sender with the same id up to the device suffix is a super-user |
| Permissions.UnsetHostMatchesEmptySender | src/components/cmd/user-permissions.js:65-89 | With no host set, a message without a sender id is treated as the super-user |
| Permissions.AddAdmin | src/components/cmd/user-permissions.js:112-126 | An id already listed changes nothing; a new one is appended; nothing else changes |
| Permissions.AddAdminIdempotent | src/components/cmd/user-permissions.js:112-126 | Adding the same admin twice is adding it once |
| Permissions.FirstIndex | src/components/cmd/user-permissions.js:130 | The index found is that of the first occurrence, and there is none exactly when the id is absent |
| Permissions.RemoveAdmin | src/components/cmd/user-permissions.js:129-143 | An absent id changes nothing. Otherwise exactly its first occurrence is removed and the rest of the list keeps its order |
| Permissions.AddThenRemove | src/components/cmd/user-permissions.js:112-143 | Adding a new admin and removing it again restores the checker |
| Permissions.ListAdmins | src/components/cmd/user-permissions.js:146-151 | The super-user list is [host] when a host is set and empty otherwise; the admin list is the stored one |
| Loading.CommandFiles | src/interface/whatsapp/events/message.js:44-45 | The files loaded are exactly the listed ones ending ".js" and not starting "_", in listing order |
| Loading.CountRegistrable | src/interface/whatsapp/events/message.js:54-57 | No more commands are counted than there are files |
| Loading.LoadAll | src/interface/whatsapp/events/message.js:48-62 | The count is the number of files whose export has a name, and the registry invariant is kept |
| Loading.LoadAllNames | src/interface/whatsapp/events/message.js:48-62 | After loading, a name is registered exactly when it was registered before or some file exports a command with that name |
| Loading.ProvidesShift | src/interface/whatsapp/events/message.js:48-62 | A name is provided by a file list exactly when its first file or the rest provides it |
| Loading.LastProviderWins | src/interface/whatsapp/events/message.js:48-62 | When several files export the same name, the last one's command is the one registered |
| Loading.LaterKeep | src/interface/whatsapp/events/message.js:48-62 | A registered command no file exports again keeps its entry |
| Dispatch.StatusTestRedundant | src/interface/whatsapp/events/message.js:89 | Every chat id ending "status@broadcast" already ends "@broadcast" |
| Dispatch.FirstNonEmpty | src/interface/whatsapp/events/message.js:202-208 | The result is the first non-empty field, and it is empty exactly when every field is |
| Dispatch.MessageBodyIsFirstField | src/interface/whatsapp/events/message.js:198-209 | The body is the first present of conversation, extended text, image caption, video caption and document caption, and empty when none is |
| Dispatch.SenderIdSources | src/interface/whatsapp/events/message.js:184-196 | A message from someone else takes its sender from the participant, then the chat id, regardless of the message id or the bot id. An own message takes the bot id when it is known, and otherwise the part of the message id before "_" |
| Dispatch.MentionedIds | src/interface/whatsapp/events/message.js:223-226 | The mentioned ids are the given ones with empty entries removed |
| Dispatch.MentionedIdsKeepsOrder | src/interface/whatsapp/events/message.js:225 | A mention list without empty entries is returned unchanged |
| Dispatch.Strip | src/interface/whatsapp/events/message.js:118-119 | The stripped text holds exactly the characters of the input that are not dropped |
| Dispatch.StripNothing | src/interface/whatsapp/events/message.js:118-119 | Text with nothing to drop is left as it is |
| Dispatch.Normalize | src/interface/whatsapp/events/message.js:116-120 | The normalised body is trimmed and holds no combining accent or invisible character |
| Dispatch.TrimmedFrom | src/interface/whatsapp/events/message.js:120 | Every character of a trimmed text comes from the text |
| Dispatch.CommandBody | src/interface/whatsapp/events/message.js:123 | The text after the prefix is trimmed |
| Dispatch.Parse | src/interface/whatsapp/events/message.js:123-126 | The command name is empty exactly when the command text is, and every argument is a non-empty word without whitespace |
| Dispatch.PiecesOfTrimmed | src/interface/whatsapp/events/message.js:124 | Splitting trimmed text on whitespace gives no empty piece after the first |
| Dispatch.SplitWsTail | src/interface/whatsapp/events/message.js:124 | Text not ending in whitespace splits into no empty piece after the first |
| Dispatch.ParseRecoversWords | src/interface/whatsapp/events/message.js:123-126 | A prefix followed by words separated by single spaces parses to the lower-cased first word and the remaining words as typed |
| Dispatch.Start | src/interface/whatsapp/events/message.js:20-67 | Start-up makes a ready system whose checker holds the saved admins and, when the bot's id is known, the host account cleaned of its device suffix |
| Dispatch.ReplyFor | src/interface/whatsapp/events/message.js:164-172 | Null becomes the not-found reply, a non-empty result is replied verbatim, and an empty result gets no reply |
| Dispatch.RunCommand | src/components/cmd/command-handler.js:50-71 | An unresolvable name leaves the system as it is, and a resolvable one always yields a reply value. The host and admins of the checker never change |
| Dispatch.HandleMessage | src/interface/whatsapp/events/message.js:69-177 | A message is ignored, with the system untouched, exactly when a filter screens it or its body is not a command line. Otherwise the system is started if need be. Replies go to the chat the message came from and are never empty |
| Dispatch.EmptyNameAsks | src/interface/whatsapp/events/message.js:159-162 | A bare prefix is answered with the prompt to enter a command and runs nothing |
| Dispatch.UnknownNameNotFound | src/interface/whatsapp/events/message.js:164-168 | An unknown name is answered with the not-found text and leaves the system, checker cache included, unchanged |
| Dispatch.EmptyResultIsSilent | src/interface/whatsapp/events/message.js:169-172 | An admitted handler that returns an empty text produces no reply |
| Dispatch.StartsOnFirstCommand | src/interface/whatsapp/events/message.js:109-111 | The first command line starts the command system |
| Reload.DerivedNameOfStem | src/commands/autoreload.js:36 | For a stem without dots, the command name derived from "stem.js" is the stem |
| Reload.ReloadSingleAsWritten | src/commands/autoreload.js:27-67 | As written, every watcher reload leaves the registry unchanged and yields null |
| Reload.ReloadSingle | src/commands/autoreload.js:27-67 | Without the cache clearing, a reload happens exactly for a command file whose module exports a named command. The derived name is unregistered and the command registered. Anything else leaves the registry alone |
| Reload.ReloadDropsStaleAliases | src/commands/autoreload.js:50-58 | A reload drops an alias that the new version of the command no longer declares |
| Reload.WatcherReloadLost | src/commands/autoreload.js:41 | For an ordinary command file the watcher as written reloads nothing, where the corrected reload registers the command the import returns |
| Reload.StemIsCommandFile | src/commands/autoreload.js:30-32 | "stem.js" passes the filter when the stem does not start with "_" |
| Reload.Unlink | src/commands/autoreload.js:79-89 | Unlinking a file unregisters its derived name and keeps every other command |
| Reload.UnlinkIgnoresFilter | src/commands/autoreload.js:79-89 | A private "_x.js" file is never loaded by the watcher, yet unlinking it unregisters "_x" |
| Reload.ModeOf | src/commands/reload.js:14-110 | "single" with a target selects a single reload of that target; anything else is a full reload, flagged as "new" when asked for |
| Reload.ResultLines | src/commands/reload.js:137-156 | There is one result line per candidate file, in file order |
| Reload.FullReload | src/commands/reload.js:126-156 | A full reload clears the registry, then loads the candidate files into it in order. Each file counts as exactly one of reloaded or failed and adds one result line. The result is the registry the start-up loader builds from the same listing |
| Reload.LoadAllStep | src/commands/reload.js:137-156 | Loading a list of files is loading the first file, then the rest |
| Reload.LoadOne | src/commands/reload.js:142-151 | A module that exports a named command registers it under that name and keeps the registry valid. Any other module leaves the registry unchanged |
| Reload.CollectResults | src/commands/reload.js:135-156 | The loop pushes one result line per file, in file order: the command's name for a load that registers, the invalid-command line for an unnamed export, and the error message for a failed import |
| Reload.ResultLinesAre | src/commands/reload.js:137-156 | Lines agreeing with the per-file results at every index are those results |
| JsString.ListFirst | src/commands/reload.js:163-166 | The report shows all results when there are at most the limit, and otherwise the first results followed by the count of the rest |
| Reload.FullBranch | src/commands/reload.js:126-171 | Without the global handler the reply says so and nothing is loaded. With it, the registry is reloaded from the candidate files, and the reloaded and failed counts add up to the number of files |
| Reload.RunAsWritten | src/commands/reload.js:54-96 | As written, "$reload single" either reports the missing file or fails with "require is not defined" without touching the registry |
| Reload.SingleFrom | src/commands/reload.js:70-91 | An import without a named export leaves the registry as it is. A named one is reported as reloaded and replaces the target in the registry when the handler is there |
| Reload.Run | src/commands/reload.js:54-171 | A missing target file is reported without touching the registry, a failed import changes nothing, a good one unregisters the target and registers the import, and every other mode is the full reload |
| Reload.SingleReloadLost | src/commands/reload.js:66 | For a present file with a named export the command as written reports an error and keeps the stale command, where the corrected one re-registers it |
| Reload.OtherModesReloadAll | src/commands/reload.js:98-110 | Any mode but a targeted "single", "new" included, reloads everything, as written and corrected alike |
| Reload.RunWithHandler | src/commands/reload.js:54-171 | Through the handler argument that `execute` equips with register, unregister and clear (src/components/cmd/command-handler.js:58-66), `$reload` never reports a missing handler. A full reload rebuilds the registry from the candidate files with the counts adding up, and a single reload of a present file with a named export replaces the target; anything else keeps the registry |
| Reload.FullReloadLost | src/commands/reload.js:126-171 | In the running bot, where nothing assigns `global.commandHandler`, a full `$reload` only answers that the handler is not available, while the handler argument would have been rebuilt from the command files |
| Reload.ReloadGate | src/commands/reload.js:183-191 | `$reload` admits only the super-user in private chats, at most once per 30 seconds per sender |
| List.FilterTypeIgnoresCase | src/commands/list.js:33 | The filter type is chosen case-insensitively |
| List.LowerIdempotent | src/commands/list.js:33 | Lower-casing twice is lower-casing once |
| List.FilterWords | src/commands/list.js:34-88 | "category" and "cat" select the category filter, and an unlisted word selects none |
| List.TextFiltersIgnoreCase | src/commands/list.js:34-84 | The category, permission, chat and name filters match the value case-insensitively |
| List.CooldownValues | src/commands/list.js:53-66 | A number keeps cooldowns at least that number, "none" keeps exactly cooldown 0, and "any" keeps exactly positive cooldowns |
| List.NoNumber | src/commands/list.js:55-56 | A value starting with a letter is not a number to parseInt |
| List.KeepIn | src/commands/list.js:29-93 | The entries kept from a category are exactly those the filter accepts, and they keep the category's order (`List.KeepInAppend`) |
| List.KeepInAppend | src/commands/list.js:29-93 | Filtering two runs of entries one after the other is filtering the joined run, so no kept entry moves ahead of an earlier one |
| List.FilterGroups | src/commands/list.js:29-127 | Only non-empty groups remain, every remaining entry passes the filter, and the total is the number of entries the filter keeps |
| List.KeepInAll | src/commands/list.js:36-84 | A known filter without a value keeps every entry of a category |
| List.EmptyValueKeepsAll | src/commands/list.js:36-84 | A known filter without a value keeps the whole listing |
| List.UnknownKeepsNoneIn | src/commands/list.js:86-88 | An unknown filter keeps no entry of a category |
| List.UnknownKeepsNothing | src/commands/list.js:86-88 | An unknown filter keeps nothing at all |
| List.UnknownNoticesAsWritten | src/commands/list.js:86-88 | As written, the unknown-filter notice is added once per listed command |
| List.UnknownNotices | src/commands/list.js:86-88 | Corrected, the notice appears once exactly when the filter is unknown |
| List.NoticeRepeats | src/commands/list.js:86-88 | For three listed commands and the filter "foo" the reply as written carries the notice three times, where it is meant once |
| List.CategorySizes | src/commands/list.js:99-104 | Each category is reported with the number of its commands, in order |
| List.Run | src/commands/list.js:4-169 | As written. The "nothing available" reply comes exactly when the caller's listing is empty. A filtered listing is the caller's listing with the filter type and value applied, and its total is the number of entries it shows; an unfiltered listing is the whole listing. The no-match reply comes exactly when a non-empty filter (other than "category" alone) keeps nothing, and it carries one notice per listed command. The category counts total the whole listing |
| List.RunCorrected | src/commands/list.js:86-131 | Corrected: the same replies as `$list` as written, except that the no-match reply carries the unknown-filter notice once, and only for an unknown filter type |
| List.CategoryWordCounts | src/commands/list.js:97-105 | The exact word "category" without a value lists the categories with their sizes and the total of the listing |
| List.CatListsEverything | src/commands/list.js:34-42 | "cat" without a value, unlike "category", lists every command |
| List.UnknownFilterAnswer | src/commands/list.js:86-131 | An unknown filter type gives the no-match reply; as written it carries one notice per listed command, corrected a single notice |
| Help.HelpChatCheck | src/commands/help.js:20-21 | `$help` and the execute wrapper agree on the chat types "both", "group" and "private". For any other chat type the wrapper allows the command while `$help` reports it as wrong |
| Help.CommandTags | src/commands/help.js:67 | Each listed command becomes the tag `` `$name` ``, in order |
| Help.AvailableMentionsAll | src/commands/help.js:62-72 | The available list names every command of the caller's listing |
| Help.CountCommands | src/commands/help.js:85-104 | The overview's total is the number of commands in the listing |
| Help.Run | src/commands/help.js:6-35 | A query resolved through the aliases gives the permission refusal first, then the chat refusal, and otherwise the command's card: its descriptor and its category (help.js:47-58). An unresolved query gives the not-found reply with the caller's listing. No query gives the overview of the caller's listing with its total, or "nothing available" exactly when that listing is empty |
| Help.ReplyText | src/commands/help.js:17-30 | The refusals, the not-found reply and the empty reply have text; the card and the overview are not modelled as text |
| Help.DetailsIffListed | src/commands/help.js:14-25 | A resolved query shows the card exactly when the command would appear in the caller's listing |
| Help.AliasDescribesCommand | src/commands/help.js:14 | Asking about an alias describes the command registered with it |
| Help.PermissionBeforeChat | src/commands/help.js:17-21 | When both refusals apply, the permission refusal is given |
| Help.CrownsDiffer | src/commands/help.js:93-95 | Every command `$list` crowns is crowned by `$help` too, but a command for admins and super-users is crowned by `$help` only |
| Help.CommandsAliasGoesToList | src/commands/help.js:36-43 | `$help` and `$list` both claim "commands". Registered in name order, the alias finds `$list` while "help" still finds `$help` |
| Admin.Run | src/commands/admin.js:5-17 | "list" gives the status for any tier. "promote" gives a promotion or the mention prompt only to a super-user, the promotion naming a non-empty target. Everything else gives the usage text |
| Admin.StatusNamesTier | src/commands/admin.js:7-9 | The status reply names the tier, and says "Manage everything" exactly for a super-user and "Moderate groups" for every other tier |
| Admin.PromoteNeedsSuperUser | src/commands/admin.js:11-17 | A super-user is told of the promotion, or asked for a target. Anyone else asking to promote gets the usage text |
| Admin.OnlyTwoWordsRead | src/commands/admin.js:5-13 | Only the action and the first parameter are read: further words change no reply, and a missing word acts like an empty one |
| Admin.AdminGate | src/commands/admin.js:19-26 | The descriptor has no aliases and a 5 s cooldown; plain users are refused with the "Requires" text and admins and super-users are admitted in any chat |
| Msg.KeepDialChars | src/commands/msg.js:20 | The cleaned number holds only digits and '+' |
| Msg.KeepDialAppend | src/commands/msg.js:20 | Cleaning two pieces and joining them is cleaning the joined text |
| Msg.KeepDialOfDial | src/commands/msg.js:20 | Digits and '+' are kept as they are |
| Msg.KeepDialOfNone | src/commands/msg.js:20 | Text with no digit or '+' is cleaned away entirely |
| Msg.Jid | src/commands/msg.js:15-22 | An argument containing "@s.whatsapp.net" is the JID itself. Otherwise the JID ends in that suffix, and its local part is made only of digits and '+' |
| Msg.DropPlusKeepsDial | src/commands/msg.js:21 | Removing the first '+' from a cleaned number leaves a cleaned number |
| Msg.NoAtNoSuffix | src/commands/msg.js:16 | Text without '@' cannot contain the user suffix |
| Msg.JidStable | src/commands/msg.js:15-22 | Turning a JID into a JID again changes nothing |
| Msg.JidOfNumber | src/commands/msg.js:20-21 | A number in international form, with or without its '+', becomes its digits followed by the suffix |
| Msg.JidOfSpacedNumber | src/commands/msg.js:20-21 | Spaces inside a number are cleaned away |
| Msg.CleanSpacedNumber | src/commands/msg.js:20 | "+a b" is cleaned to "+ab" for digit strings a and b |
| Msg.CleanSpaceThen | src/commands/msg.js:20 | A space before digits is cleaned away |
| Msg.NoDigitsBareSuffix | src/commands/msg.js:15-22 | Nothing validates the number: an argument with no digit, '+' or '@' becomes the bare suffix |
| Msg.Run | src/commands/msg.js:7-29 | Fewer than two arguments give the usage text and send nothing; otherwise the attempt goes to the JID of the first argument with the rest joined by single spaces |
| Msg.TextRecoversWords | src/commands/msg.js:12 | The text sent splits back into the words typed after the number |
| Msg.Replies | src/commands/msg.js:25-51 | The usage text is the only reply to a short command; an attempt is confirmed first, naming the JID, and then its result is reported |
| Msg.ResultText | src/commands/msg.js:31-51 | The final reply opens with a tick exactly when the message was delivered |
| Msg.MsgGate | src/commands/msg.js:53-61 | `$msg` admits only the super-user, and only in private chats |
| MsgAll.PersonalChats | src/commands/msgall.js:66-73 | The personal chats are exactly the gathered chats whose id is non-empty and not a group, broadcast, status, linked-device or newsletter id |
| MsgAll.Considered | src/commands/msgall.js:87 | At most 100 chats are considered, all personal, and all personal chats when there are no more than 100 |
| MsgAll.TallyOf | src/commands/msgall.js:87-124 | Each contact adds at most one result, success or failure, and the delivered contacts are the successes |
| MsgAll.SendAll | src/commands/msgall.js:87-124 | The sending loop over the considered chats ends with the counts, result lines and recipients of the per-contact fold |
| MsgAll.SentToExactly | src/commands/msgall.js:87-112 | The text is sent to exactly the considered contacts that neither skip rule catches and the network reports delivered |
| MsgAll.RecipientsAreGenuine | src/commands/msgall.js:66-93 | Nobody outside the gathered personal chats is messaged, nor the bot itself, nor a short service id |
| MsgAll.Broadcast | src/commands/msgall.js:6-139 | Empty text gives the usage reply and sends nothing. Otherwise the start notice quoting the text goes out first; no personal chat then gives the no-contacts reply. Otherwise the report carries the counts, result lines and recipients of the loop over the considered chats, with the tip exactly when nothing was delivered |
| MsgAll.ResultsBlock | src/commands/msgall.js:132-133 | Up to 15 results are shown in full; beyond that the first 15 are followed by the count of the rest |
| MsgAll.ResultsBlockShows | src/commands/msgall.js:132 | Each of the first 15 results appears in the report |
| MsgAll.Preview | src/commands/msgall.js:13 | Text of at most 50 UTF-16 code units is quoted whole. Longer text is cut to the longest opening that fits in 50 units, one character more would not fit, and "..." marks the cut |
| MsgAll.StartNoticeQuotes | src/commands/msgall.js:13 | The start notice contains the text itself when it fits in 50 code units, and otherwise its longest opening that fits |
| MsgAll.MsgAllGate | src/commands/msgall.js:147-155 | `$msgall` admits only the super-user, and only in private chats |
| Core.ShouldIgnoreIff | src/core/core.js:70-74 | A text is ignored exactly when its trimmed length is below 2 |
| Core.DropboxIsMediaAsWritten | src/core/core.js:64 | As written, "dropbox.com" counts as a media link, because "x.com" occurs inside it |
| Core.DropboxMatchesInsideWords | src/core/core.js:59-67 | Every media pattern that matches inside "dropbox.com" matches in the middle of a word, so a word-boundary test rejects it |
| Core.MediaUrlRefines | src/core/core.js:58-68 | Whatever the corrected test takes for a media link, the test as written does too |
| Core.MediaLinksRecognised | src/core/core.js:59-66 | Real X and YouTube links still count as media links under the corrected test |
| Core.GetAIResponse | src/core/core.js:78-97 | A non-empty answer from the service is returned, and anything else gives the error template, so the reply is never empty |
| Core.Classify | src/core/core.js:102-128 | The checks run in the order ignore, greeting, help, media and AI, each on the trimmed text, and the first that holds classifies it. The media check is the substring test as written (`AnyMatch`) or the corrected word-start test (`WordStart`) |
| Core.MediaTestsAgree | src/core/core.js:58-68 | The two media tests classify every text alike, except that a text the substring test takes for a media link goes to the AI service under the word-start test when no pattern starts a word in it |
| Core.ProcessMessage | src/core/core.js:102-134 | Nothing is returned exactly for ignored text. Greetings get the picked template, help gets the help card, media links get the media notice, and everything else gets the AI answer to the trimmed text |
| Core.DropboxAnswers | src/core/core.js:102-128 | As written, "dropbox.com" is answered with the media notice; under the word-start test it is a question for the AI service |
| Core.GreetingBeforeHelp | src/core/core.js:110-120 | Greetings are checked first: a text that opens with a greeting word and a space and does not end in whitespace gets a greeting whatever follows, under either media test |
| Core.GreetingShadowsHelp | src/core/core.js:110-120 | A greeting word, a space, anything and then "help" is a help request, and is still answered with a greeting |
| Core.OpensWithGreeting | src/core/core.js:46-50 | A text that, lower-cased, opens with a greeting word and a space and does not end in whitespace is its own trim, is not ignored, and is a greeting whatever follows |
| Core.NotIgnoredIfLong | src/core/core.js:70-74 | Text of trimmed length 2 or more is not ignored |
| Core.GreetingWord | src/core/core.js:46-50 | Text starting with any greeting word and a space is a greeting |
| Core.HelpWordAnywhere | src/core/core.js:52-56 | "HELP" anywhere in a text makes it a help request |
| Core.HelpInside | src/core/core.js:52-56 | Text containing "help" in any case is a help request, trimmed or not, and is not ignored |
| Core.HelpTemplateMentionsHelp | src/core/core.js:32-39 | The help card itself reads as a help request |
| Core.SpelledHelpInside | src/core/core.js:54-55 | "help" spelt in any letter case inside a text is found by the lower-cased search |
| Core.NoGreetingInitial | src/core/core.js:46-50 | Text whose first letter starts no greeting word is not a greeting |
| WhatsApp.AllowedIff | src/interface/whatsapp/whatsapp.js:22-36 | A sender is allowed exactly when the part before '@' is a whitelisted number |
| WhatsApp.NoPrefixMatch | src/interface/whatsapp/whatsapp.js:23-33 | The empty sender is refused, and a whitelisted number with extra digits is not whitelisted |
| WhatsApp.Push | src/interface/whatsapp/whatsapp.js:51-60 | The new entry is last, and the history grows by one until it holds 6, after which the oldest entry goes |
| WhatsApp.StoreKeepsBound | src/interface/whatsapp/whatsapp.js:40-61 | No chat's history ever exceeds 6 entries |
| WhatsApp.StoreKeepsOtherChats | src/interface/whatsapp/whatsapp.js:45-61 | Storing in one chat leaves every other chat's history unchanged |
| WhatsApp.Line | src/interface/whatsapp/whatsapp.js:76 | A history line starts with the user's name and ends with the text |
| WhatsApp.Lines | src/interface/whatsapp/whatsapp.js:74-77 | There is one line per stored entry, in order |
| WhatsApp.GetHistory | src/interface/whatsapp/whatsapp.js:66-80 | The history text is empty exactly for a chat with nothing stored, and otherwise opens with its oldest entry (order: `WhatsApp.HistoryLinesInOrder`) |
| WhatsApp.HistoryHasEveryMessage | src/interface/whatsapp/whatsapp.js:66-80 | Every stored text appears in the history text |
| WhatsApp.HistoryLinesInOrder | src/interface/whatsapp/whatsapp.js:66-80 | When no stored name or text holds a line break, splitting the history text at line breaks gives back the stored messages' lines, oldest first |
| WhatsApp.DisplayName | src/interface/whatsapp/whatsapp.js:144 | The name is the push name, else the sender's number, else "Unknown", and never empty |
| WhatsApp.MessageText | src/interface/whatsapp/whatsapp.js:167 | The text is the conversation, or the extended text when there is none |
| WhatsApp.Context | src/interface/whatsapp/whatsapp.js:189 | Without history the input is the text. With history it opens with the header and the history and ends with the text |
| WhatsApp.ReplyTo | src/interface/whatsapp/whatsapp.js:189-193 | Corrected, the classification uses the message alone with the word-start media test, and only the AI question carries the history |
| WhatsApp.FreshChatAgrees | src/interface/whatsapp/whatsapp.js:189-193 | In a chat without history, the handler as written and the corrected one answer alike whenever the two media tests classify the text alike |
| WhatsApp.StoreExchange | src/interface/whatsapp/whatsapp.js:199-200 | The message and then the reply are appended to the chat's history |
| WhatsApp.ExchangeKeepsBound | src/interface/whatsapp/whatsapp.js:199-200 | Storing an exchange keeps every history within 6 entries |
| WhatsApp.Deliver | src/interface/whatsapp/whatsapp.js:192-204 | The exchange is stored, and the reply is sent to the sender only. The reply time is recorded only when the send succeeds |
| WhatsApp.ReplyEffects | src/interface/whatsapp/whatsapp.js:155-212 | An answered message is marked read, the typing indicator goes on and off, and the reply goes to the sender. A throwing send adds the error template, again to the sender only |
| WhatsApp.Settle | src/interface/whatsapp/whatsapp.js:192-204 | Without a reply only the read receipt and the typing indicator are sent, and the state is left alone. A reply is delivered to the sender, the history stays bounded and the reply time changes only after a successful send |
| WhatsApp.Answer | src/interface/whatsapp/whatsapp.js:181-204 | Answering a message sends only to its sender, opens with the read receipt, keeps the history bounded and records the reply time only after a successful send |
| WhatsApp.OnUpsert | src/interface/whatsapp/whatsapp.js:138-217 | Own messages, empty upserts and upserts without a sender id get nothing sent; other unlisted senders only get a read receipt. A message that is not answered leaves the state alone. Everything sent goes to the sender, and the history stays bounded |
| WhatsApp.ReplyCooldown | src/interface/whatsapp/whatsapp.js:173-179 | Within 2000 ms of a reply, a further text message from the same chat is marked read and otherwise ignored |
| WhatsApp.ContextIsNeverGreeting | src/interface/whatsapp/whatsapp.js:189 | A context with history starts with its header, so it never reads as a greeting |
| WhatsApp.ContextIsHelp | src/interface/whatsapp/whatsapp.js:189-193 | Once "help" is in the history, every context reads as a help request under either media test |
| WhatsApp.ContextMentionsHelp | src/interface/whatsapp/whatsapp.js:189 | Once "help" is in the history, the context contains it |
| WhatsApp.ContextHasStored | src/interface/whatsapp/whatsapp.js:182-189 | Every stored text appears in the context |
| WhatsApp.ContextHoldsHistory | src/interface/whatsapp/whatsapp.js:189 | Whatever the history contains, the context contains too |
| WhatsApp.HelpIsStickyAsWritten | src/interface/whatsapp/whatsapp.js:189-193 | As written, once "help" is in a chat's history, every message there that is not ignored gets the help card |
| WhatsApp.HelpCardStays | src/interface/whatsapp/whatsapp.js:199-200 | Sending the help card puts "help" into the history |
| WhatsApp.GreetingLostAsWritten | src/interface/whatsapp/whatsapp.js:189-193 | As written, a greeting in a chat with history is not recognised as one |
| WhatsApp.CorrectedIgnoresHistory | src/interface/whatsapp/whatsapp.js:189-193 | Corrected, a greeting, help request or media link is answered as in a fresh chat, whatever the history |
| ContentType.FirstRow | src/utils/getContentType.js:2-6 | The row chosen is the first whose suffix the name ends with |
| ContentType.SuffixMimeIsFirstRow | src/utils/getContentType.js:2-6 | The MIME type found is that of the first matching row, in table order |
| ContentType.GetContentTypeAsWritten | src/utils/getContentType.js:1-8 | As written, a listed suffix gives its MIME type and any other raises a TypeError, since a string is not a constructor |
| ContentType.GetContentType | src/utils/getContentType.js:1-8 | A name is found exactly when it ends with a listed suffix, and then its type is that of the first matching row in table order; otherwise the error names the file |
| ContentType.SameMapping | src/utils/getContentType.js:2-6 | Corrected and as written agree on every listed suffix |
| ContentType.UnknownSuffixLosesName | src/utils/getContentType.js:7 | For "clip.gif" the code as written raises a TypeError where the intended error names the file |
| ContentType.EndsWithChar | src/utils/getContentType.js:2-6 | A name ending with a suffix has that suffix's characters at its end |
| ContentType.JpegIsNotJpg | src/utils/getContentType.js:3-4 | A ".jpeg" name is image/jpeg, not caught by the ".jpg" row |
| ContentType.UpperCaseSuffixRaises | src/utils/getContentType.js:2-7 | Suffixes are case-sensitive: ".PNG" is unknown |

## Left out

- Socket, authentication and reconnection, QR handling, Telegram and the HTTP routes: transport over vendor libraries. Replies and sends are the `Reaction` and `Effect` values the model returns.
- Timers: cooldown and admin-cache expiry by `setTimeout` become lazy comparisons against an explicit `now`. The 300 ms typing delay, the presence updates and the 800 ms rate-limit pause in `$msgall` change no result.
- Persistence of `admins.json`: reading it is the `saved` parameter and the write after `addAdmin`/`removeAdmin` is not modelled.
- Dynamic `import` is the `Loader` oracle. The CommonJS require cache and chokidar's debouncing are not modelled. The cache clearing raises, as described under Findings.
- Reload.ReloadSingle and Reload.Run: the loader returns a file's current export on every call. The command files are ES modules, and `import` of a `file://` URL already imported returns the module cached at the first import without reading the file again (src/commands/reload.js:70 and :139, src/commands/autoreload.js:47 import the plain URL). So in the running bot every reload, full or single, re-registers the command loaded at start-up, not the edited file; only files never imported before are read. Picking up edits also needs a cache-busting URL, such as a `?t=` query.
- `global.commandHandler`: nothing in the source assigns it. Its presence is the `Option<Registry>` parameter of `Reload.Run`, and `Reload.GLOBAL_HANDLER` is the `None` the running bot finds; see Findings.
- Reload.Run: `$reload` reads `<root>/commands` (src/commands/reload.js:18 joins "../../commands" onto src/commands). The start-up loader reads src/commands (src/interface/whatsapp/events/message.js:40). Unless `<root>/commands` exists, every `$reload` answers "❌ Commands directory not found!" (src/commands/reload.js:20-22); that reply is not modelled. The listing of the directory `$reload` reads is a parameter, so Reload.FullReload matches start-up loading only when both directories list the same files.
- The two report sections of `$reload` that read `stats()` and the `_commands` field are not modelled.
- `commandHandler.register` being absent in the full reload: the model assumes the handler object has it, as every handler built by the source does.
- `loadCommandsByCategory`: exported by base-command.js but called nowhere in the source.
- Unicode NFKC normalisation is the uninterpreted `nfkc` parameter. The accent and invisible-character stripping is modelled.
- `toLowerCase` is modelled on ASCII letters only.
- JsString.ParseInt: `parseInt` without a radix is modelled as a leading-digits decimal parse with an optional sign. JavaScript reads a "0x" or "0X" prefix as hexadecimal, where the model reads the "0" and stops, so `$list cooldown 0x10` (src/commands/list.js:55) keeps every command here, and only those with a cooldown of 16 or more in the source.
- List.Run: the regrouping of filtered entries is written as filtering within each category. Since the listing's categories are distinct and in first-seen order, both give the same groups.
- Help.Run and List.Run: the decoration of the overview, the command card (`formatCommandInfo`) and the listing text is not modelled, only their content and totals. The card's content is the command's descriptor together with its category.
- JavaScript object key order puts integer-like keys first. Category names are assumed not to be integer-like, so insertion order is kept.
- MsgAll.Preview: the cut falls at a character boundary. Where `substring(0, 50)` would split a surrogate pair, the source keeps the lone high surrogate and the model drops the whole character.
- WhatsApp.StoreExchange: both entries are stamped with the message's arrival time `now`. The source calls `Date.now()` again for each entry when it is stored, after the AI reply (src/interface/whatsapp/whatsapp.js:54). Nothing modelled reads the stamps.
- MsgAll.Broadcast: gathering chats from groups, the chat store and the blocklist is socket work and enters as the list `chats`. The "Error:" reply for a failure of that gathering is not modelled.
- Msg.ResultText: states only whether the reply reports success, not the full wording of each failure text.
- `path.basename`: file names reach the model already reduced to their base name.
- The voice-note reply and the error-template reply of the chat front end are effects whose text is not modelled; the random greeting choice is the `pick` index.
- The AI HTTP request is the `ai` oracle: the prompt wording beyond a fixed prefix, the timeout and the API response shape are not modelled.
- Status, ping, about, info, tag-all, the group broadcast and the debug commands, the memory monitor and the requirements check: metrics, floats, DNS and socket introspection outside the command engine.
- Permissions.NewChecker: the source keeps the group-admin cache at module level (src/components/cmd/user-permissions.js:10), shared by every checker. "A new checker has no cached verdicts" therefore holds only for the first checker. The message handler creates one, on the first command (src/interface/whatsapp/events/message.js:109-111).
- Concurrency between messages, reloads and watcher events: the model is sequential.

## Findings

| source | as written | input that shows it | evidently intended | confidence | as-written member | corrected member |
|---|---|---|---|---|---|---|
| src/commands/autoreload.js:41 | `require.resolve(filePath)` in an ES module raises "require is not defined", which the catch turns into null | saving any command file, e.g. "ping.js" exporting `ping` | clear the cache if possible, then import and re-register the command; picking up edits also needs a cache-busting import URL, such as a `?t=` query | not executed | Reload.WatcherReloadLost | Reload.ReloadSingle |
| src/commands/reload.js:66 | the same call makes `$reload single ping` reply "Error reloading ping: require is not defined" and keep the stale command | `$reload single ping` with "ping.js" present in `<root>/commands`, the directory `$reload` reads (src/commands/reload.js:18); the bot itself loads src/commands | re-import the file, unregister the old command and register the new one; picking up edits also needs a cache-busting import URL, such as a `?t=` query | not executed | Reload.SingleReloadLost | Reload.Run |
| src/commands/reload.js:126 | the full reload looks the registry up in `global.commandHandler`, which nothing in the program assigns, so every full `$reload` replies "❌ Command handler not available globally!" and reloads nothing | `$reload` or `$reload new` from the super-user in a private chat, with `<root>/commands` present (src/commands/reload.js:18-22) | act on the `handler` argument, which `execute` equips with register, unregister and clear "for reload functionality" (src/components/cmd/command-handler.js:60-63) | not executed | Reload.FullReloadLost | Reload.RunWithHandler |
| src/interface/whatsapp/whatsapp.js:189 | the history-prefixed context is what the classifier sees, so after a help card every message gets the help card again and no greeting is recognised | "hi there" in a chat whose history holds the help card | classify the user's own text and pass the history only to the AI | not executed | WhatsApp.HelpIsStickyAsWritten | WhatsApp.CorrectedIgnoresHistory |
| src/utils/getContentType.js:7 | `throw new "Unknown mimetype " + str` applies `new` to a string, raising a TypeError that loses the file name | "clip.gif" | throw an Error naming the file | not executed | ContentType.UnknownSuffixLosesName | ContentType.GetContentType |
| src/core/core.js:64 | `/x\.com/i` matches inside any host ending in "x.com" | "dropbox.com" | match the X domain as a whole word | not executed | Core.DropboxAnswers | Core.MediaTestsAgree |
| src/commands/list.js:88 | the unknown-filter notice is appended inside the per-command loop | `$list foo` for a caller with three commands: the notice three times | one notice per reply | not executed | List.UnknownFilterAnswer | List.RunCorrected |
