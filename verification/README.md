# Title plugin: a verified model of the title-state protocol

The plugin gives Minecraft players collectible titles. It grants them through
title books, lists them in a menu, and shows the selected one through
PlaceholderAPI. Several server processes share one MySQL database and one Redis
server, so title state lives in three tiers:

- **Tables** (`Tables.Store`): holder → (title name → grant time), and holder →
  selected title name.
- **Shared cache** (`Redis.Server`): entries under "title:"-prefixed keys.
  `titles:<uuid>` holds the encoded collection and `selected:<uuid>` holds the
  selected name, with "null" for none. The server also keeps the log of
  messages published on the "title:sync" channel.
- **Local cache** of each process (`Manager.Local`): holder → collection, and
  holder → selected name, with "" for none.

`TitleStorage` reads through and writes through the shared cache (module
`Storage`). `TitleManager` adds the local cache and the invalidation handler
(module `Manager`). `TitleRedisManager` is the client with its handler list and
one-shot subscription (module `Redis`). Several processes exchanging the
published messages are modelled in module `Cluster`. The title book listener,
the menu listener and the placeholder expansion sit on top (`BookListener`,
`GuiListener`, `Placeholder`). The text formatters are `PluginText` (`colorize`,
`getMessage`), `TitleFormat` and `HexColors` (`formatTitle`,
`translateHexColorCodes`).

Every asynchronous call is modelled as completing where it is issued, so the
whole system is one sequential state machine. The database's health is a
boolean per operation. A failed read fails its future (`Failed`). A failed
write never completes its future (`Pending`); its callback, and with it the
cache update and the publish, never runs. The Redis server's reachability is a
field of the server state. Gson, `UUID.toString`/`fromString` and Bukkit's
legacy colour translation are parameters (`TitleModel.Codecs`, `legacy`). They
are constrained only by `TitleModel.Wf`: a printed UUID has no ':' and parses
back, and decoding undoes encoding.

The central result is coherence (`Coherence.CacheCoherent`,
`Cluster.SystemCoherent`): every shared and local cache entry agrees with the
tables. With the database up and the acting process reaching Redis, every
operation preserves it once every process has received what the operation
published (the unreachable case is the "Coherence.SetSelectedKeepsCoherent"
line under "Left out"). Under coherence, every read made with the database up
returns, on every process, what the tables hold (`Cluster.ReadsSeeStore`); a
selection read made with the database down can break it
(`Cluster.SelectionReadErrorCachesNone`). Grants, deletions and selection
changes become visible on every process (`Cluster.GrantVisibleEverywhere`,
`Cluster.DeletionVisibleEverywhere`, `Cluster.SelectionVisibleEverywhere`).

Behaviours of the code that the model states as they are:

- A grant, a deletion and a selection change are each published twice: once by
  `TitleStorage`, once by `TitleManager` (`Manager.AddTitle`,
  `Manager.SetSelectedTitle`, `Cluster.DeleteNewsShapes`).
- A title literally named "null" reads back from the shared cache as no
  selection (`Coherence.NullNamedSelectionReadsAsNone`). A selected "null"
  title also stays selected after it is deleted
  (`Coherence.NullNamedTitleSurvivesDelete`). This is why the coherence
  theorems assume no selected title is named "null" or ""
  (`Coherence.NoReservedSelection`).
- A database error while reading the selection caches "" locally, which hides
  an existing selection on that process (`Cluster.SelectionReadErrorCachesNone`).
- The title book is used up even when the grant's database write fails
  (`BookListener.BookSpentOnFailedGrant`).
- The configured cache TTL is not checked. With 0 or less the server refuses
  every write, so a cached selection outlives later selection changes
  (`Coherence.NonPositiveTtlKeepsStaleSelection`). This is why the selection
  theorems assume a positive TTL.

## Model

| member | source | states |
|---|---|---|
| Strings.ContainsIffOccurs | src/main/java/com/dotorimaru/title/listeners/TitleBookUseListener.java:27 | `String.contains`, used on the action name and on the menu's view title, holds exactly when the text occurs at some position |
| Strings.Split3 | src/main/java/com/dotorimaru/title/managers/TitleManager.java:48-52 | `split(":", 3)` yields one to three parts; there are at least two exactly when the message holds a ':'; the first two parts hold no ':'; joining the parts with ':' gives back the message |
| Strings.Split3OfJoin | src/main/java/com/dotorimaru/title/managers/TitleManager.java:48-52 | splitting `action:holder:rest` with colon-free action and holder gives back exactly those three parts, whatever the rest holds |
| Strings.ReplaceChar | src/main/java/com/dotorimaru/title/TitlePlugin.java:213 | `replace('&', '§')` keeps the length, turns each '&' into '§' and keeps every other character in place, so no '&' remains |
| Strings.ReplaceAbsent | src/main/java/com/dotorimaru/title/TitlePlugin.java:184 | replacing `%prefix%` leaves a message without the placeholder unchanged |
| Strings.NatToString | src/main/java/com/dotorimaru/title/placeholders/TitlePlaceholder.java:114 | `String.valueOf` on a count is non-empty, all decimal digits, with no leading zero |
| Strings.DecimalRoundTrip | src/main/java/com/dotorimaru/title/placeholders/TitlePlaceholder.java:114 | reading the printed count back as a decimal gives the count |
| HexColors.HexEscape | src/main/java/com/dotorimaru/title/TitlePlugin.java:200-206 | a six-digit colour becomes `§x` followed by `§` and each digit, in order and with its case kept |
| HexColors.ExpandWithoutMarker | src/main/java/com/dotorimaru/title/managers/TitleManager.java:222-236 | text without '#' passes through the hex translation unchanged |
| HexColors.ExpandNoMatch | src/main/java/com/dotorimaru/title/managers/TitleManager.java:222-236 | text where no '#' is followed by six hex digits passes through unchanged |
| HexColors.ExpandLeavesNoMatch | src/main/java/com/dotorimaru/title/managers/TitleManager.java:222-236 | after the translation no '#' followed by six hex digits remains |
| HexColors.ExpandIdempotent | src/main/java/com/dotorimaru/title/managers/TitleManager.java:222-236 | translating twice gives the same text as translating once |
| PluginText.Colorize | src/main/java/com/dotorimaru/title/TitlePlugin.java:190-216 | `colorize(null)` is ""; the result never contains '&' |
| PluginText.ColorizeIsOnePass | src/main/java/com/dotorimaru/title/TitlePlugin.java:194-213 | colorize equals an independent one-pass definition: "&#" plus six hex digits becomes the `§x` escape, every other '&' becomes '§', every other character passes through in order |
| PluginText.ColorizePlain | src/main/java/com/dotorimaru/title/TitlePlugin.java:194-213 | text without '&' is returned unchanged |
| PluginText.ColorizeIdempotent | src/main/java/com/dotorimaru/title/TitlePlugin.java:194-213 | colorizing a colorized text changes nothing |
| PluginText.GetMessage | src/main/java/com/dotorimaru/title/TitlePlugin.java:181-185 | the message never contains '&'; a missing key falls back to the key itself, colorized |
| PluginText.GetMessageSubstitutesPrefix | src/main/java/com/dotorimaru/title/TitlePlugin.java:181-185 | a configured message with one `%prefix%` (no '%' before it) is colorized with the configured prefix, or the default one when none is configured, in its place and the text around it unchanged |
| TitleFormat.FormatTitle | src/main/java/com/dotorimaru/title/managers/TitleManager.java:204-217 | "" exactly for null or empty input; otherwise the text opens with "[" and closes with "§r] ", what lies between is the title after both colour translations, and it holds no untranslated "#RRGGBB" |
| TitleFormat.FormatWithoutHex | src/main/java/com/dotorimaru/title/managers/TitleManager.java:204-217 | when the legacy translation leaves no '#', the result is "[" + translation + "§r] " |
| TitleFormat.TranslateOneColour | src/main/java/com/dotorimaru/title/managers/TitleManager.java:222-236 | a "#" followed by six hex digits becomes "§x" and the six digits each behind "§", and the text after them is translated on its own |
| TitleFormat.TranslatePassThrough | src/main/java/com/dotorimaru/title/managers/TitleManager.java:222-236 | a character that does not start "#RRGGBB" is copied and translation carries on with the next one |
| TitleModel.ShowInjective | src/main/java/com/dotorimaru/title/database/TitleStorage.java:113 | distinct holders print as distinct UUID strings, so their cache keys and messages differ |
| Tables.LoadCollection | src/main/java/com/dotorimaru/title/database/TitleStorage.java:100-116 | the loaded map's keys are exactly the holder's rows; each record is keyed by its own name, carries the row's grant time and has `equipped` false |
| Tables.UpsertTitle | src/main/java/com/dotorimaru/title/database/TitleStorage.java:131-149 | the upsert reports rows > 0, sets that one (holder, name) row to the current time, and changes no other holder and no selection |
| Tables.UpsertGrowsByAtMostOne | src/main/java/com/dotorimaru/title/database/TitleStorage.java:134-146 | an upsert grows the collection by at most one and keeps its size when the title was already held |
| Tables.DeleteTitleRow | src/main/java/com/dotorimaru/title/database/TitleStorage.java:154-181 | the delete reports rows > 0 exactly when the row existed, removes exactly that name and changes nothing else |
| Tables.WriteSelected | src/main/java/com/dotorimaru/title/database/TitleStorage.java:237-259 | the holder's selection row becomes the given name or disappears for none; other holders' rows and all title rows stay |
| Redis.FromConfig | src/main/java/com/dotorimaru/title/database/TitleRedisManager.java:33-44 | `enabled` defaults to true; a configured TTL is kept as given (unchecked) and an absent one is 600 seconds; no pool, no handlers, no subscription yet |
| Redis.Connect | src/main/java/com/dotorimaru/title/database/TitleRedisManager.java:47-85 | after connecting the client is enabled exactly when the config enables it and the server answered (or it was connected already); a failed connect leaves no pool |
| Redis.Disconnect | src/main/java/com/dotorimaru/title/database/TitleRedisManager.java:88-93 | after closing the pool the client is disabled and keeps its handlers |
| Redis.GetCache | src/main/java/com/dotorimaru/title/database/TitleRedisManager.java:128-137 | a disabled or unreachable cache answers null; otherwise the value stored under "title:" + key, present exactly when that key is |
| Redis.SetCacheTtl | src/main/java/com/dotorimaru/title/database/TitleRedisManager.java:117-125 | writes only the prefixed key, storing the value with its TTL; changes nothing when disabled, unreachable or given a TTL that is not positive, which the server refuses |
| Redis.SetCache | src/main/java/com/dotorimaru/title/database/TitleRedisManager.java:112-114 | a write without a TTL uses the configured TTL, and stores nothing when that TTL is not positive |
| Redis.DeleteCache | src/main/java/com/dotorimaru/title/database/TitleRedisManager.java:140-148 | removes only the prefixed key; changes nothing when disabled or unreachable |
| Redis.Publish | src/main/java/com/dotorimaru/title/database/TitleRedisManager.java:169-178 | appends the message to the channel's log when live, otherwise nothing; never touches the entries |
| Redis.GetAfterSet | src/main/java/com/dotorimaru/title/database/TitleRedisManager.java:107-137 | reading a key back after writing it yields the written value when the configured TTL is positive, and the earlier reading otherwise |
| Redis.GetAfterSetOther | src/main/java/com/dotorimaru/title/database/TitleRedisManager.java:107-137 | writing one key does not change what another key reads |
| Redis.DefaultTtlOnWrite | src/main/java/com/dotorimaru/title/database/TitleRedisManager.java:33-44 | with no TTL configured, a write stores its entry with the 600-second TTL |
| Redis.PrefixPatternMatches | src/main/java/com/dotorimaru/title/database/TitleRedisManager.java:151-166 | a pattern `p*` matches exactly the keys that start with p |
| Redis.Matching | src/main/java/com/dotorimaru/title/database/TitleRedisManager.java:155-162 | a scan batch keeps exactly the keys that match the prefixed pattern |
| Redis.Scan | src/main/java/com/dotorimaru/title/database/TitleRedisManager.java:155-162 | each scan call returns cursor 0 or a cursor strictly further on, so the loop ends |
| Redis.DeleteCachePattern | src/main/java/com/dotorimaru/title/database/TitleRedisManager.java:151-166 | the cursor loop removes exactly the entries whose keys match "title:" + pattern and keeps all others; nothing happens when disabled |
| Redis.AddHandler | src/main/java/com/dotorimaru/title/database/TitleRedisManager.java:183-197 | disabled: nothing changes; enabled: exactly one handler is appended and the subscription is started only if its flag was clear |
| Redis.SubscribeFailed | src/main/java/com/dotorimaru/title/database/TitleRedisManager.java:202-242 | a failed subscription clears the flag and keeps the handlers |
| Redis.SubscribeOnce | src/main/java/com/dotorimaru/title/database/TitleRedisManager.java:183-197 | registering several handlers appends them all, in order, and starts at most one subscription |
| Redis.DisabledAddsNothing | src/main/java/com/dotorimaru/title/database/TitleRedisManager.java:183-197 | on a disabled client registering handlers changes nothing |
| Redis.RetryAfterFailure | src/main/java/com/dotorimaru/title/database/TitleRedisManager.java:183-242 | after a failed subscription the next registration would start a new one; the plugin registers its handler only once, so in the plugin the retry never happens (`Cluster.UnsubscribedMissesGrant` shows what such a process misses) |
| Redis.FanOutAppend | src/main/java/com/dotorimaru/title/database/TitleRedisManager.java:214-221 | a message visits the handlers in registration order |
| Redis.FanOutSkipsThrowing | src/main/java/com/dotorimaru/title/database/TitleRedisManager.java:214-221 | a handler that throws is skipped and the later handlers still run |
| Storage.LoadPlayerTitles | src/main/java/com/dotorimaru/title/database/TitleStorage.java:72-126 | a decodable cached entry is returned without the tables; an undecodable or missing one falls through; with the database down the load fails; otherwise the rows are returned and written to the cache; nothing is published and only the titles key changes |
| Storage.GetSelectedTitle | src/main/java/com/dotorimaru/title/database/TitleStorage.java:186-232 | always completes; a cached value is returned with "null" read as none; a database error gives none; otherwise the row is returned and cached, none as "null"; only the selected key changes |
| Storage.SetSelectedTitle | src/main/java/com/dotorimaru/title/database/TitleStorage.java:237-259 | a failed write never completes and has no cache effect; otherwise the row is written and, when live, one select message is published whatever the row count and the cache holds the name or "null" (with a TTL that is not positive, what it held before) |
| Storage.AddTitle | src/main/java/com/dotorimaru/title/database/TitleStorage.java:131-149 | a failed write never completes; otherwise the upsert succeeds and, when live, the titles key is deleted and one add message is published |
| Storage.DeleteTitle | src/main/java/com/dotorimaru/title/database/TitleStorage.java:154-181 | answers whether the row existed and removes it; on success both holder keys are deleted and one remove message is published, preceded by clearing the selection when the re-read selection names the title (the order once the asynchronous re-read is sequentialised; in the program the removal is normally published first); nothing outside the holder changes |
| Storage.ClearAndAnnounce | src/main/java/com/dotorimaru/title/database/TitleStorage.java:163-174 | after the row is gone the selection row is cleared exactly when the re-read selection names the title and a row existed; with Redis live both holder keys are gone and the removal is published, preceded by the select message when it cleared (the sequentialised order; the program's asynchronous re-read normally publishes after the removal) |
| Storage.HasTitle | src/main/java/com/dotorimaru/title/database/TitleStorage.java:264-266 | ownership is exactly membership in the loaded collection, and completes exactly when the load does |
| Coherence.LoadKeepsCoherent | src/main/java/com/dotorimaru/title/database/TitleStorage.java:72-126 | read-through loading never makes a cached collection disagree with the tables |
| Coherence.GetSelectedKeepsCoherent | src/main/java/com/dotorimaru/title/database/TitleStorage.java:186-232 | read-through selection reads never make a cached selection disagree with the tables |
| Coherence.SetSelectedKeepsCoherent | src/main/java/com/dotorimaru/title/database/TitleStorage.java:237-259 | a selection write keeps every cache entry agreeing with the tables while the cache is reachable, when the TTL is positive or no selection was cached |
| Coherence.NonPositiveTtlKeepsStaleSelection | src/main/java/com/dotorimaru/title/database/TitleStorage.java:237-259 | with a TTL that is not positive, a new selection is written to the table while the selection read back stays what was cached before |
| Coherence.AddKeepsCoherent | src/main/java/com/dotorimaru/title/database/TitleStorage.java:131-149 | a grant keeps every cache entry agreeing with the tables while the cache is reachable |
| Coherence.DeleteKeepsCoherent | src/main/java/com/dotorimaru/title/database/TitleStorage.java:154-181 | a deletion keeps every cache entry agreeing with the tables while the cache is reachable |
| Coherence.LoadReadsStore | src/main/java/com/dotorimaru/title/database/TitleStorage.java:72-126 | with the cache coherent, whatever a load returns is the holder's rows, and with the database up it always returns them |
| Coherence.GetSelectedReadsStore | src/main/java/com/dotorimaru/title/database/TitleStorage.java:186-232 | with the cache coherent and no reserved name selected, a selection read returns the row on a cache hit or with the database up |
| Coherence.NullNamedSelectionReadsAsNone | src/main/java/com/dotorimaru/title/database/TitleStorage.java:190-196 | selecting a title literally named "null" stores it, yet reading the selection back answers none |
| Coherence.DisabledCacheUsesStore | src/main/java/com/dotorimaru/title/database/TitleStorage.java:72-259 | with the cache disabled, reads come straight from the tables and writes leave the cache and channel untouched |
| Coherence.AddThenLoad | src/main/java/com/dotorimaru/title/database/TitleStorage.java:131-149 | after a grant the next load holds the title with its grant time |
| Coherence.DeleteThenLoad | src/main/java/com/dotorimaru/title/database/TitleStorage.java:154-181 | after a deletion the next load lacks the title |
| Coherence.DeleteClearsSelectionIff | src/main/java/com/dotorimaru/title/database/TitleStorage.java:159-178 | deleting an owned title clears the selection exactly when it was the selected one and otherwise leaves every selection alone |
| Coherence.NullNamedTitleSurvivesDelete | src/main/java/com/dotorimaru/title/database/TitleStorage.java:159-178 | a selected title named "null" stays selected after it is deleted, because the re-read selection answers none |
| Manager.Create | src/main/java/com/dotorimaru/title/managers/TitleManager.java:37-72 | an enabled client gets exactly the sync handler and a subscription; a disabled one is left alone; the local caches start empty |
| Manager.HandleSync | src/main/java/com/dotorimaru/title/managers/TitleManager.java:37-72 | the handler only evicts local entries; a message without ':' changes nothing; only a "title-select" message can evict a selection |
| Manager.MessageNamesHolder | src/main/java/com/dotorimaru/title/managers/TitleManager.java:48-67 | a message `action:holder:rest` names that holder, and is a select message exactly when the action is "title-select" |
| Manager.PublishedMessagesParse | src/main/java/com/dotorimaru/title/managers/TitleManager.java:48-67 | every add, remove and select message the protocol publishes names its holder; only the select message is a select message |
| Manager.AddMessageParses | src/main/java/com/dotorimaru/title/managers/TitleManager.java:48-60 | the handler reads the holder back out of an add message, and does not take it for a selection |
| Manager.RemoveMessageParses | src/main/java/com/dotorimaru/title/managers/TitleManager.java:48-60 | the handler reads the holder back out of a remove message, and does not take it for a selection |
| Manager.SelectMessageParses | src/main/java/com/dotorimaru/title/managers/TitleManager.java:48-62 | the handler reads the holder back out of a select message and takes it for a selection |
| Manager.HandleAddOrRemove | src/main/java/com/dotorimaru/title/managers/TitleManager.java:48-67 | receiving an add or remove message evicts the holder's collection and nothing else |
| Manager.HandleSelect | src/main/java/com/dotorimaru/title/managers/TitleManager.java:48-67 | receiving a select message evicts both the holder's collection and selection |
| Manager.LoadTitles | src/main/java/com/dotorimaru/title/managers/TitleManager.java:77-88 | a local hit never consults storage; a miss returns the storage answer and a successful one is remembered locally; the tables never change |
| Manager.AddTitle | src/main/java/com/dotorimaru/title/managers/TitleManager.java:93-106 | a completed grant evicts the holder's local collection and, when live, the add message is published twice in all |
| Manager.SetSelectedTitle | src/main/java/com/dotorimaru/title/managers/TitleManager.java:167-177 | a completed write stores the name or "" locally and, when live, the select message is published twice in all and the cache holds the name or "null" (with a TTL that is not positive, what it held before) |
| Manager.DeleteTitle | src/main/java/com/dotorimaru/title/managers/TitleManager.java:111-130 | a successful deletion evicts the local collection, clears the selection when the locally cached one is the title, and changes nothing outside the holder |
| Manager.FinishDelete | src/main/java/com/dotorimaru/title/managers/TitleManager.java:113-126 | the local collection is evicted; the local and stored selection are cleared exactly when the locally cached selection is the title; with Redis live the published log grows by two select messages and the removal, or by the removal alone, in the sequentialised order |
| Manager.GetSelectedTitle | src/main/java/com/dotorimaru/title/managers/TitleManager.java:138-154 | always completes; a local hit answers with "" read as none; otherwise the storage answer is returned and remembered locally as the name or "" |
| Manager.GetSelectedTitleSync | src/main/java/com/dotorimaru/title/managers/TitleManager.java:159-162 | answers the locally cached selection when it is non-empty and none otherwise, never loading |
| Manager.HasTitle | src/main/java/com/dotorimaru/title/managers/TitleManager.java:182-190 | a local collection answers by membership; otherwise storage answers and the local cache is not filled |
| Manager.GetTitleCount | src/main/java/com/dotorimaru/title/managers/TitleManager.java:195-197 | the count is the size of the loaded collection and completes exactly when the load does |
| Manager.IsFull | src/main/java/com/dotorimaru/title/managers/TitleManager.java:269-271 | full exactly when the loaded collection has 54 or more titles |
| Manager.RemoveCache | src/main/java/com/dotorimaru/title/managers/TitleManager.java:241-244 | forgets both entries of one holder and keeps every other holder's |
| Manager.ClearAllCache | src/main/java/com/dotorimaru/title/managers/TitleManager.java:249-253 | empties both local caches |
| Manager.GetTitles | src/main/java/com/dotorimaru/title/managers/TitleManager.java:262-264 | the alias answers from the local cache when present and remembers what it loads |
| Manager.RemoveTitle | src/main/java/com/dotorimaru/title/managers/TitleManager.java:276-278 | with the database up, the alias reports whether the title was owned and leaves it unowned |
| Manager.EquipTitle | src/main/java/com/dotorimaru/title/managers/TitleManager.java:283-285 | with the database up the title becomes the selection row and the locally cached selection |
| Manager.UnequipTitle | src/main/java/com/dotorimaru/title/managers/TitleManager.java:290-292 | with the database up the selection row and the local selection become none |
| Cluster.Receive | src/main/java/com/dotorimaru/title/database/TitleRedisManager.java:209-221 | a subscribed process runs the sync handler on each message; an unsubscribed one ignores it |
| Cluster.ReceiveAllEvicts | src/main/java/com/dotorimaru/title/managers/TitleManager.java:48-67 | messages about one holder only evict; any of them evicts the holder's collection, and a select message also its selection |
| Cluster.CatchUp | src/main/java/com/dotorimaru/title/managers/TitleManager.java:48-67 | a process that receives every message about a changed holder ends with a local cache agreeing with the new tables |
| Cluster.DeleteNewsShapes | src/main/java/com/dotorimaru/title/managers/TitleManager.java:111-130 | a deletion publishes two remove messages, with select messages when a selection was cleared (in the sequentialised order), and leaves the selection when it publishes none |
| Cluster.DeleteAnnounces | src/main/java/com/dotorimaru/title/managers/TitleManager.java:111-130 | everything a deletion publishes names the holder, and a changed selection is always announced by a select message |
| Cluster.NewsOfDeletion | src/main/java/com/dotorimaru/title/managers/TitleManager.java:111-130 | whichever of the four shapes a deletion publishes, every message names the holder and a changed selection comes with a select message |
| Cluster.TwiceAnnounced | src/main/java/com/dotorimaru/title/managers/TitleManager.java:48-62 | one message naming the holder, published twice, announces a change confined to that holder, provided it is a select message when the selection changed |
| Cluster.SettleKeepsCoherent | src/main/java/com/dotorimaru/title/managers/TitleManager.java:37-72 | a change confined to one holder and announced to every process keeps all caches of all processes agreeing with the tables |
| Cluster.AddKeepsSystemCoherent | src/main/java/com/dotorimaru/title/managers/TitleManager.java:93-106 | a grant on any process keeps every cache everywhere agreeing with the tables once its messages arrive |
| Cluster.AddStep | src/main/java/com/dotorimaru/title/managers/TitleManager.java:93-106 | a grant leaves the granting process's cache and the shared cache agreeing with the tables, changes only the holder's rows and announces itself |
| Cluster.GrantLocalCoherent | src/main/java/com/dotorimaru/title/managers/TitleManager.java:94-98 | evicting the holder's collection while its row is upserted keeps the local cache agreeing with the tables and leaves other holders' rows alone |
| Cluster.SelectKeepsSystemCoherent | src/main/java/com/dotorimaru/title/managers/TitleManager.java:167-177 | a selection change keeps every cache everywhere agreeing with the tables, unless the name is "null" or "" |
| Cluster.SelectStep | src/main/java/com/dotorimaru/title/managers/TitleManager.java:167-177 | a selection change leaves the selecting process's cache and the shared cache agreeing with the tables, changes only the holder's selection and announces itself |
| Cluster.SelectionWriteLocal | src/main/java/com/dotorimaru/title/managers/TitleManager.java:168-170 | writing a selection that is neither "null" nor "" and remembering it locally keeps the local cache agreeing with the tables and no reserved name selected |
| Cluster.ManagerDeleteSelection | src/main/java/com/dotorimaru/title/managers/TitleManager.java:118-121 | the manager's deletion clears the selection exactly when the locally cached selection is the title |
| Cluster.ActorCoherentAfterDelete | src/main/java/com/dotorimaru/title/managers/TitleManager.java:111-130 | the deleting process's own cache agrees with the tables after the deletion |
| Cluster.DeletionLocalCoherent | src/main/java/com/dotorimaru/title/managers/TitleManager.java:113-121 | after the storage layer's clearing and the manager's eviction and clearing, the local cache agrees with the tables and the selection is unchanged or none |
| Cluster.DeleteKeepsSystemCoherent | src/main/java/com/dotorimaru/title/managers/TitleManager.java:111-130 | a deletion keeps every cache everywhere agreeing with the tables once its messages arrive |
| Cluster.DeleteCacheCoherent | src/main/java/com/dotorimaru/title/managers/TitleManager.java:111-130 | the manager's deletion, including its own selection clearing, keeps the shared cache coherent |
| Cluster.LoadKeepsSystemCoherent | src/main/java/com/dotorimaru/title/managers/TitleManager.java:77-88 | loading publishes nothing and keeps every cache everywhere coherent |
| Cluster.GetSelectedKeepsSystemCoherent | src/main/java/com/dotorimaru/title/managers/TitleManager.java:138-154 | with the database up, reading the selection publishes nothing and keeps every cache everywhere coherent (with it down, `Cluster.SelectionReadErrorCachesNone` shows the local cache going wrong) |
| Cluster.ReadsSeeStore | src/main/java/com/dotorimaru/title/managers/TitleManager.java:77-190 | in a coherent system, with the database up, every read on every process answers what the tables hold |
| Cluster.NodeReadsSeeStore | src/main/java/com/dotorimaru/title/managers/TitleManager.java:77-190 | a process whose cache and the shared cache are coherent reads, with the database up, what the tables hold |
| Cluster.GrantVisibleEverywhere | src/main/java/com/dotorimaru/title/managers/TitleManager.java:93-106 | after a grant, any process's next load holds the title with its grant time and every title held before |
| Cluster.DeletionVisibleEverywhere | src/main/java/com/dotorimaru/title/managers/TitleManager.java:111-130 | after a deletion, no process loads the title, and a selection of it reads as none everywhere |
| Cluster.SelectionVisibleEverywhere | src/main/java/com/dotorimaru/title/managers/TitleManager.java:167-177 | after a selection change, every process reads the new selection |
| Cluster.SelectionReadErrorCachesNone | src/main/java/com/dotorimaru/title/managers/TitleManager.java:138-154 | a database error while reading an existing selection leaves "" cached locally, so the process's cache no longer agrees with the tables |
| Cluster.UnsubscribedIgnores | src/main/java/com/dotorimaru/title/database/TitleRedisManager.java:183-242 | a process whose subscription is not running is left unchanged by any sequence of published messages |
| Cluster.UnsubscribedMissesGrant | src/main/java/com/dotorimaru/title/managers/TitleManager.java:37-43 | a process without a running subscription still loads the holder's old collection after another process's grant, although the tables hold the title |
| BookListener.Consume | src/main/java/com/dotorimaru/title/listeners/TitleBookUseListener.java:63-70 | using the book takes exactly one book from the hand that held it and leaves the other hand alone |
| BookListener.ConsumeAsWrittenHitsMainHand | src/main/java/com/dotorimaru/title/listeners/TitleBookUseListener.java:66-70 | as written, a last book used from the off hand survives while the main-hand item is cleared |
| BookListener.ConsumeAsWrittenMainHand | src/main/java/com/dotorimaru/title/listeners/TitleBookUseListener.java:66-70 | as written, a book used from the main hand is consumed as intended |
| BookListener.OnInteract | src/main/java/com/dotorimaru/title/listeners/TitleBookUseListener.java:22-78 | only a right click with a title book is cancelled; otherwise nothing happens; the title is granted exactly when it is reported unowned and the collection reported not full; only then is one book taken from the hand that held it (the corrected consumption listed under Findings), and a failed grant still takes it |
| BookListener.BookDecision | src/main/java/com/dotorimaru/title/listeners/TitleBookUseListener.java:45-70 | with coherent caches and the database answering the checks, the book is rejected as owned exactly when owned, as full exactly when unowned with 54 or more titles, and grants otherwise, adding exactly that title when the write succeeds |
| BookListener.BookRespectsLimit | src/main/java/com/dotorimaru/title/listeners/TitleBookUseListener.java:55-60 | book use, whatever the database's read and write health, never takes a holder past 54 titles |
| BookListener.CheckedRoom | src/main/java/com/dotorimaru/title/listeners/TitleBookUseListener.java:55-60 | with coherent caches and any database health, a collection the listener's check reports as not full has fewer than 54 titles in the tables |
| BookListener.BookSpentOnFailedGrant | src/main/java/com/dotorimaru/title/listeners/TitleBookUseListener.java:63-70 | when the grant's database write fails, the book is still used up and the title is not added |
| GuiListener.HandleEquip | src/main/java/com/dotorimaru/title/listeners/TitleGUIListener.java:97-117 | clicking the currently selected title unequips it; any other title becomes equipped |
| GuiListener.OnClick | src/main/java/com/dotorimaru/title/listeners/TitleGUIListener.java:29-73 | only a player's click in a view titled with "칭호" is cancelled; a click without a title tag does nothing; shift + right click deletes, other left clicks toggle; a deletion leaves the title unowned and other holders untouched |
| GuiListener.ToggleFlipsSelection | src/main/java/com/dotorimaru/title/listeners/TitleGUIListener.java:97-117 | with coherent caches and the database up, a left click clears the selection when it is the clicked title and selects the clicked title otherwise |
| GuiListener.DoubleToggle | src/main/java/com/dotorimaru/title/listeners/TitleGUIListener.java:97-117 | with coherent caches, the database up and a non-empty title name, two left clicks on the same title restore its selected state, the second being answered from the local cache |
| Placeholder.CountText | src/main/java/com/dotorimaru/title/placeholders/TitlePlaceholder.java:107-119 | the count placeholder is a non-empty run of decimal digits without a leading zero that reads back as the count when it arrives in time and as 0 on failure or timeout |
| Placeholder.OnPlaceholderRequest | src/main/java/com/dotorimaru/title/placeholders/TitlePlaceholder.java:65-80 | a missing player gives ""; unknown identifiers give null; "title" has no '&' and is "" exactly without a selection; "title_raw" is the local selection or ""; only "title_count" can touch the caches |
| Placeholder.OnRequest | src/main/java/com/dotorimaru/title/placeholders/TitlePlaceholder.java:54-59 | an unknown or offline player gives ""; an online one is answered as by the newer entry point |
| Placeholder.ColoredWrapsRaw | src/main/java/com/dotorimaru/title/placeholders/TitlePlaceholder.java:85-102 | "title" is "" exactly when "title_raw" is, and otherwise is the raw title colorized inside white brackets |
| Placeholder.RawFollowsEquip | src/main/java/com/dotorimaru/title/placeholders/TitlePlaceholder.java:99-102 | "title_raw" shows an equipped title as soon as equipping completes, and "" after unequipping |
| Placeholder.CountMatchesStore | src/main/java/com/dotorimaru/title/placeholders/TitlePlaceholder.java:107-119 | with coherent caches and the database up, the count placeholder reads back as the number of titles owned |

## Findings

| source | as written | input that shows it | evidently intended | confidence | as-written member | corrected member |
|---|---|---|---|---|---|---|
| src/main/java/com/dotorimaru/title/listeners/TitleBookUseListener.java:66-70 | the last book is removed by emptying the main hand, whichever hand held the book | a right click with one title book in the off hand while the main hand holds another item: the book stays and the main-hand item is destroyed | empty the hand that held the book | medium; not executed (depends on the server firing the interaction for the off hand) | BookListener.ConsumeAsWrittenHitsMainHand | BookListener.Consume |

`BookListener.OnInteract` uses the corrected `BookListener.Consume`.
`BookListener.ConsumeAsWrittenMainHand` shows the two agree when the book is
used from the main hand.

## Left out

- SQL text and schema creation (`createTables`): the tables are two maps. The `updated_at` column is not modelled.
- `TitleMySQLManager` (JDBC, connection pool, executor threads): `asyncUpdate`/`asyncQuery` become a database-health flag per operation. A failed write never completes, because its callback never runs.
- Jedis networking, the pool configuration, ping and the subscriber thread: reachability is a flag, and a subscription is a flag plus a delivery function (`Cluster.Receive`). TTLs are stored but never expire, since expiry timing is not modelled.
- Glob patterns in `deleteCachePattern` support only `*` and `?`, not bracket classes or escapes, which the plugin never uses.
- Gson, `UUID.toString`/`fromString` and Bukkit's `translateAlternateColorCodes` are parameters, constrained only as `TitleModel.Wf` states.
- `System.currentTimeMillis` is the `now` parameter; Java's 64-bit `long` wrap-around of grant times is not modelled.
- Threads, `CompletableFuture` chaining and the scheduler hops are sequentialised: each call completes where it is issued. Interleavings of concurrent operations are not modelled.
- `TitleGUI` (building the menu's items) and `TitleBookManager` (tagging book items) are Bukkit item glue. The listeners take the item's tagged title name as input. A tag that reads back null after being present cannot happen in the model.
- Commands, `PlayerJoinListener`, plugin start-up and shutdown, logging, chat messages and the menu refresh are not modelled.
- Coherence.SetSelectedKeepsCoherent: like the other write-coherence lemmas (and the `Cluster` theorems built on them), it assumes the writing process reaches Redis. A write while Redis is unreachable publishes nothing, so other processes' local entries (which never expire) stay stale until the holder leaves that server, and shared entries stay stale until their TTL ends; that case is not stated.
- Coherence.GetSelectedReadsStore: assumes no selected title is named "null" or "". Those names break the read-back; `Coherence.NullNamedSelectionReadsAsNone` states how.
- Coherence.SetSelectedKeepsCoherent: also assumes a positive `database.redis.cache.ttl` or no cached selection, and so do `Cluster.SelectStep`, `Cluster.SelectKeepsSystemCoherent` and `Cluster.SelectionVisibleEverywhere` (a positive TTL). The configuration value is not checked; with 0 or less every SETEX fails, and `Coherence.NonPositiveTtlKeepsStaleSelection` shows the stale read that follows.
- Tables.UpsertTitle / Tables.DeleteTitleRow: title names are compared exactly. The table's `utf8mb4_unicode_ci` collation compares them without regard to case and accents, so there "Hero" and "HERO" are one row, and `title_name` is a `VARCHAR(200)`, so a longer name fails the write. `BookListener.BookDecision` and `Coherence.AddThenLoad` inherit the exact comparison and the missing length limit.
- Cluster.SystemCoherent: assumes every process has a running subscription with exactly the sync handler. In the plugin this fails for a process whose Redis connect failed (it never registers) or whose subscription failed (it never registers again). Such a process ignores every message, so its local entries stay stale until the holder leaves that server (`Cluster.UnsubscribedMissesGrant`).
- Placeholder.CountText: the 100 ms wait is the `inTime` flag, not a clock.
- BookListener.OnInteract: `hasTitle` and `isFull` see one database health (`readUp`), and the grant sees its own (`writeUp`). It uses the corrected `BookListener.Consume`; the program as written empties the main hand instead when the last book is used from the off hand, so there the book stays and the main-hand item is lost (`BookListener.ConsumeAsWrittenHitsMainHand`).
- BookListener.BookSpentOnFailedGrant: states the book taken from the hand that held it, as `BookListener.Consume` does; as written, the same off-hand case keeps the book.
