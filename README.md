# hamclubbot in Dafny

A model of the core of hamclubbot, a Discord bot for an amateur radio club, with proofs
about it. The model covers four parts of the bot, in the packaged copy under
`src/hamclubbot` and the legacy copy under `extensions`, and the first cache and cog at the
top of the repository:

- **The expiring web cache.** `CacheEntry` and `WebCache` of the packaged bot (module
  `Webcache`), the legacy copy under `extensions/util` (`ExtUtilWebcache`) and the first,
  dictionary-based cache at the top of the repository (`RootWebcache`). Each cache is a
  class over a map from URL to entry objects. The decision one `get_url` makes is stated on
  values in `CacheSpec`, and the `GetUrl` of `Webcache` and of `ExtUtilWebcache` is proved to
  change its map exactly that way. The first cache keeps a creation time instead of an
  expiry and is specified on its own.
  The freshness text with Python's half-to-even `round` is in `Freshness`. Decimal
  rendering of numbers is in `Decimal`.
- **The per-guild key/value store.** `PersistentGuildStore` in both copies (`PersistentStore`,
  `ExtUtilPersistentStore`) works over a shared `Database` object (`Storage`). That object
  stands for the SQLite file: its `USER_VERSION` and the rows of the `storage` table, keyed
  by (guild, key). `Storage` also models what the SQL statements mean:
  - the upsert and the delete;
  - `LIKE 'prefix%'` with SQLite's ASCII case folding;
  - `ORDER BY key ASC` as a strictly ascending listing.
- **The club-information commands** (`ClubInfo`):
  - the three admission checks of `manage_club update`;
  - the record built for an upload and the type chosen from its extension;
  - the save on "yes";
  - `manage_club get`, `manage_club delete`, `club`;
  - the autocomplete of topic names;
  - the name of the downloaded file.

  Each command opens a store on the shared database, as the cog does.
- **Command statistics and cog configuration** (`SimpleBot`, `ExtUtilSimpleBot`):
  - the counters of `CommandStats`;
  - the get-or-insert of `__get_command_stats`;
  - the three `on_application_command*` hooks;
  - the `cmdstats` log line;
  - the configuration a `SimpleCog` selects.

  The first `SimpleCog` in the top-level `simplebot.py` selects its configuration by a
  stricter rule: an unknown name raises KeyError (`RootSimpleBot`).

  `Replay` and `ReplayCounts` state what any run of hook calls leaves behind.

The clock, the HTTP fetch, the user's confirmation and the JSON codec are parameters of the
operations that use them:
- the time is an integer number of seconds `now`;
- a fetch is a response or an exception;
- `dumps` and `loads` stand for `json.dumps` and `json.loads`.

The rounding of the freshness text follows the code. `last_refreshed_str` rounds elapsed
minutes with `round`, so at 59 s it shows "Refreshed 1 minute ago" and at 119 s
"Refreshed 2 minutes ago" (`Freshness.LastRefreshedRoundsUp`). The tests at
tests/hamclubbot/extensions/util/webcache_test.py lines 22-23 and 28-29 expect the floor
instead. The model states what the code computes. It also shows that the four other
times the tests check agree with the code (`Freshness.LastRefreshedAgreesWithTests`).

The order of `get_keys` comes from SQLite's BINARY collation. UTF-8 byte order agrees with
code-point order, so the model compares keys character by character (`Storage.Less`).

## Model

| member | source | states |
|---|---|---|
| Freshness.RoundedMinutes | src/hamclubbot/extensions/util/webcache.py:52 | the minute count is the nearest integer to elapsed/60 (within 30 s) and a tie goes to the even neighbour, as Python's `round` does |
| Freshness.RoundedMinutesUnique | src/hamclubbot/extensions/util/webcache.py:52 | those two properties determine the rounding: any other integer meeting them equals RoundedMinutes |
| Freshness.LastRefreshed | src/hamclubbot/extensions/util/webcache.py:50-57 | "Just refreshed" exactly when at most 30 s have passed, "Refreshed 1 minute ago" exactly when 30 < elapsed < 90, otherwise "Refreshed N minutes ago" with N the rounded count in decimal |
| Freshness.LastRefreshedDistinguishesMinutes | src/hamclubbot/extensions/util/webcache.py:52-57 | two elapsed times get the same text only when they round to the same minute count |
| Freshness.MinuteFormsDiffer | src/hamclubbot/extensions/util/webcache.py:55-57 | the singular text is never the plural text of any count |
| Freshness.LastRefreshedAgreesWithTests | tests/hamclubbot/extensions/util/webcache_test.py:19-20 | at 0, 60, 120 and 600 s the text is the one the tests expect (lines 19-20, 25-26, 31-35) |
| Freshness.LastRefreshedRoundsUp | src/hamclubbot/extensions/util/webcache.py:52 | at 59 s the text is "Refreshed 1 minute ago" and at 119 s "Refreshed 2 minutes ago", because the count is rounded, not floored |
| Decimal.IntToString | src/hamclubbot/extensions/util/webcache.py:57 | the decimal rendering of an integer is non-empty and starts with '-' exactly when the integer is negative, followed by the rendering of its magnitude |
| Decimal.NatToString | src/hamclubbot/extensions/util/webcache.py:57 | the decimal rendering of a count is non-empty, all digits, and has a leading zero only for 0 |
| Decimal.ValueOfNatToString | src/hamclubbot/extensions/util/webcache.py:57 | reading the digits back gives the number, so the rendering loses nothing |
| Decimal.IntToStringInjective | src/hamclubbot/extensions/util/webcache.py:57 | different integers render differently |
| Decimal.DigitRunCancel | src/hamclubbot/extensions/util/simplebot.py:28-29 | a number followed by a non-digit can be split off a string in one way only |
| CacheSpec.Get | src/hamclubbot/extensions/util/webcache.py:73-99 | one request: a success leaves its entry stored under the URL; it fails exactly when the URL is not a hit and the fetch raises, and a failure leaves the map as it was |
| CacheSpec.NewEntry | src/hamclubbot/extensions/util/webcache.py:20-24 | a new entry is created now, expires ttl seconds later, holds the content and has no extra value |
| CacheSpec.Clear | src/hamclubbot/extensions/util/webcache.py:101-105 | the URL is gone and every other entry is kept unchanged |
| CacheSpec.HitIgnoresFetch | src/hamclubbot/extensions/util/webcache.py:85-91 | a cached URL that has not expired is answered with the cached entry and an unchanged map, whatever the fetch would do |
| CacheSpec.MissStoresNewEntry | src/hamclubbot/extensions/util/webcache.py:93-99 | a missing or expired URL is fetched and a brand-new entry (created now, no extra, body kept whatever the status) replaces its slot |
| CacheSpec.FailedFetchKeepsCache | src/hamclubbot/extensions/util/webcache.py:96 | when the fetch raises, the exception reaches the caller and the map, stale entry included, is unchanged |
| CacheSpec.GetWritesOnlyItsUrl | src/hamclubbot/extensions/util/webcache.py:97 | a request leaves the entries of every other URL untouched |
| CacheSpec.SecondGetWithinTtlIsServedFromCache | src/hamclubbot/extensions/util/webcache.py:85-91 | a second request before the first result expires returns that same result and changes nothing |
| CacheSpec.GetAfterExpiryRefetches | src/hamclubbot/extensions/util/webcache.py:88-97 | at or after the expiry instant the URL is fetched again and an extra value attached to the old entry is not carried over |
| CacheSpec.ClearForcesFetch | src/hamclubbot/extensions/util/webcache.py:101-105 | after clear_cache the next request for the URL always goes to the fetch |
| CacheSpec.SixtySecondScenario | src/hamclubbot/extensions/util/webcache.py:62-99 | with a 60 s lifetime: fetched at 0 it expires at 60, at 59 the same entry is returned, at 61 a new entry expiring at 121 is fetched |
| Webcache.CacheEntry.constructor | src/hamclubbot/extensions/util/webcache.py:20-24 | the entry equals NewEntry: expires_at is created_at + ttl and extra is None |
| Webcache.CacheEntry.SetExtra | src/hamclubbot/extensions/util/webcache.py:46-48 | the setter changes the extra value only; timestamps and content stay |
| Webcache.CacheEntry.LastRefreshedStr | src/hamclubbot/extensions/util/webcache.py:50-57 | the freshness text of the entry at time now, with the three cases of LastRefreshed |
| Webcache.WebCache.constructor | src/hamclubbot/extensions/util/webcache.py:62-71 | an empty cache with the given lifetime |
| Webcache.WebCache.Default | src/hamclubbot/extensions/util/webcache.py:62 | the lifetime defaults to 900 s |
| Webcache.WebCache.GetUrl | src/hamclubbot/extensions/util/webcache.py:73-99 | a hit returns the stored object itself and leaves the map; a miss stores and returns a fresh object for the fetched body; a raising fetch changes nothing; in every case the map of values changes exactly as CacheSpec.Get says |
| Webcache.WebCache.ClearCache | src/hamclubbot/extensions/util/webcache.py:101-105 | the URL is removed (absent URLs are no error), the values change as CacheSpec.Clear says, and no later time counts as cached |
| ExtUtilWebcache.CacheEntry.constructor | extensions/util/webcache.py:15-19 | the legacy entry equals NewEntry |
| ExtUtilWebcache.CacheEntry.SetExtra | extensions/util/webcache.py:37-39 | the setter changes the extra value only |
| ExtUtilWebcache.CacheEntry.LastRefreshedStr | extensions/util/webcache.py:41-49 | the same three freshness cases as the packaged copy |
| ExtUtilWebcache.WebCache.constructor | extensions/util/webcache.py:54-62 | an empty cache with the given lifetime |
| ExtUtilWebcache.WebCache.Default | extensions/util/webcache.py:54 | the lifetime defaults to 900 s |
| ExtUtilWebcache.WebCache.GetUrl | extensions/util/webcache.py:64-90 | hit, miss and raising fetch as in the packaged copy, tied to CacheSpec.Get |
| RootWebcache.DictEntry.constructor | webcache.py:25-28 | a new entry dictionary holds the timestamp and content and no extra key |
| RootWebcache.WebCache.constructor | webcache.py:6-9 | an empty cache with the given lifetime |
| RootWebcache.WebCache.Default | webcache.py:6 | the lifetime defaults to 900 s |
| RootWebcache.WebCache.GetUrl | webcache.py:11-30 | an entry younger than the lifetime is returned as stored; otherwise a fresh dictionary without an extra key replaces the slot; a raising fetch changes nothing |
| RootWebcache.RelatedDataAsWritten | webcache.py:32-39 | an uncached URL raises ValueError, data other than None is attached; data None consults the entry cached under the literal key "url" |
| RootWebcache.RelatedDataLiteralKeyCounterexample | webcache.py:34-35 | clearing the extra value of a cached URL raises KeyError as written, where the intended code deletes it |
| RootWebcache.RelatedDataIntended | webcache.py:32-39 | never a KeyError; ValueError exactly for an uncached URL; None removes an existing extra key or stores None, any other data is stored |
| RootWebcache.IntendedClearLeavesNoValue | webcache.py:34-35 | clearing with None always succeeds and leaves no derived value |
| RootWebcache.WebCache.CacheRelatedData | webcache.py:32-39 | the outcome and the new extra keys are those of RelatedDataAsWritten; only the entry of the URL changes |
| RootWebcache.WebCache.CacheRelatedDataIntended | webcache.py:32-39 | the outcome and new extra keys are those of RelatedDataIntended; never KeyError, ValueError exactly when the URL is not cached |
| Storage.Database.Empty | src/hamclubbot/extensions/util/persistentstore.py:25-33 | a new database file has USER_VERSION 0 and no rows |
| Storage.Database.constructor | src/hamclubbot/extensions/util/persistentstore.py:28-33 | an arbitrary database in which a version of 0 means no table and therefore no rows |
| Storage.Lookup | src/hamclubbot/extensions/util/persistentstore.py:37-45 | the meaning of `SELECT value ... WHERE guild_id=? AND key=?`: the row's value, or the default when there is no row |
| Storage.Upsert | src/hamclubbot/extensions/util/persistentstore.py:47-52 | the insert-or-update adds (guild, key) to the rows if absent, stores the value there, and keeps every other row's value |
| Storage.Delete | src/hamclubbot/extensions/util/persistentstore.py:54-57 | the delete removes exactly (guild, key), if present, and keeps every other row's value |
| Storage.LookupAfterUpsert | src/hamclubbot/extensions/util/persistentstore.py:37-52 | after set_value the key reads back the value; every other (guild, key) reads as before |
| Storage.LookupAfterDelete | src/hamclubbot/extensions/util/persistentstore.py:37-57 | after delete_value the key reads as the default; every other (guild, key) reads as before |
| Storage.GuildIsolation | src/hamclubbot/extensions/util/persistentstore.py:47-57 | writing or deleting in one guild leaves the keys of every other guild unchanged |
| Storage.GuildKeysAfterWrite | src/hamclubbot/extensions/util/persistentstore.py:47-57 | set_value adds exactly its key to the guild, delete_value removes exactly its key |
| Storage.FoldAscii | src/hamclubbot/extensions/util/persistentstore.py:64-66 | LIKE folds each letter A-Z to its own lower-case letter (code point plus 32) and leaves every other character |
| Storage.FoldString | src/hamclubbot/extensions/util/persistentstore.py:64-66 | folding works character by character and keeps the length |
| Storage.Like | src/hamclubbot/extensions/util/persistentstore.py:62-66 | the meaning of SQLite's LIKE: `%` matches any run of characters, `_` any one character, and other characters match up to ASCII case |
| Storage.LikePercent | src/hamclubbot/extensions/util/persistentstore.py:63 | a lone % matches every key |
| Storage.LikePrefix | src/hamclubbot/extensions/util/persistentstore.py:63-66 | for a prefix without wildcards, `key LIKE prefix%` holds exactly when the key starts with the prefix up to ASCII case |
| Storage.LikePrefixIsStartsWith | src/hamclubbot/extensions/util/persistentstore.py:63-66 | for lower-case keys and prefix the match is plain starts-with |
| Storage.NoUpperFoldsToItself | src/hamclubbot/extensions/util/persistentstore.py:64-66 | folding a string with no upper-case ASCII letter changes nothing |
| Storage.LikeIgnoresPatternCase | src/hamclubbot/extensions/util/persistentstore.py:64-66 | lower-casing the pattern never changes what LIKE matches |
| Storage.Selected | src/hamclubbot/extensions/util/persistentstore.py:62-66 | the WHERE test of get_keys: no prefix or an empty one selects every key, otherwise `key LIKE prefix%` |
| Storage.Matching | src/hamclubbot/extensions/util/persistentstore.py:62-69 | the set of keys get_keys returns: the guild's keys that pass Selected |
| Storage.MatchingEmptyPrefixIsAll | src/hamclubbot/extensions/util/persistentstore.py:62-69 | a prefix of None or "" selects every key of the guild |
| Storage.MatchingIsGuildKeysFiltered | src/hamclubbot/extensions/util/persistentstore.py:62-69 | the selected keys are the guild's keys that pass the prefix test |
| Storage.Less | src/hamclubbot/extensions/util/persistentstore.py:65 | the BINARY collation: character-by-character comparison, a proper prefix sorting first |
| Storage.LessIrreflexive | src/hamclubbot/extensions/util/persistentstore.py:65 | the BINARY collation of ORDER BY KEY ASC is irreflexive |
| Storage.LessTransitive | src/hamclubbot/extensions/util/persistentstore.py:65 | and transitive |
| Storage.LessTotal | src/hamclubbot/extensions/util/persistentstore.py:65 | and total on distinct keys |
| Storage.LeastExists | src/hamclubbot/extensions/util/persistentstore.py:65 | every non-empty set of keys has a least key |
| Storage.AscendingListingSize | src/hamclubbot/extensions/util/persistentstore.py:64-75 | an ascending listing never repeats a key |
| Storage.AscendingListingUnique | src/hamclubbot/extensions/util/persistentstore.py:64-75 | two ascending listings of the same keys are equal, so the listing get_keys returns is determined |
| Storage.OrderedCursor | src/hamclubbot/extensions/util/persistentstore.py:64-72 | the result rows come out in strictly ascending order, each selected key exactly once |
| Storage.SelectKeys | src/hamclubbot/extensions/util/persistentstore.py:62-72 | the cursor lists exactly the selected keys of the guild, ascending and without repeats |
| PersistentStore.InitialisedVersion | src/hamclubbot/extensions/util/persistentstore.py:28-33 | version 0 becomes 1, any other version is kept |
| PersistentStore.InitialisationIdempotent | src/hamclubbot/extensions/util/persistentstore.py:21-35 | opening a store a second time changes nothing more |
| PersistentStore.PersistentGuildStore.constructor | src/hamclubbot/extensions/util/persistentstore.py:21-35 | the table exists afterwards, USER_VERSION becomes 1 only when it was 0, and no row changes |
| PersistentStore.PersistentGuildStore.GetValue | src/hamclubbot/extensions/util/persistentstore.py:37-45 | the stored value of (guild, key), or the default when there is none |
| PersistentStore.PersistentGuildStore.SetValue | src/hamclubbot/extensions/util/persistentstore.py:47-52 | an upsert of the single (guild, key) row; nothing else changes |
| PersistentStore.PersistentGuildStore.DeleteValue | src/hamclubbot/extensions/util/persistentstore.py:54-57 | exactly the (guild, key) row is removed, if present |
| PersistentStore.PersistentGuildStore.GetKeys | src/hamclubbot/extensions/util/persistentstore.py:59-75 | the guild's keys that pass the prefix test, in strictly ascending order, each once |
| PersistentStore.ExampleListings | tests/hamclubbot/extensions/util/persistentstore_test.py:33-42 | the listings the tests expect are ascending and hold exactly the selected keys |
| ExtUtilPersistentStore.PersistentGuildStore.constructor | extensions/util/persistentstore.py:13-25 | the same schema step as the packaged copy |
| ExtUtilPersistentStore.PersistentGuildStore.GetValue | extensions/util/persistentstore.py:27-34 | the stored value or the default |
| ExtUtilPersistentStore.PersistentGuildStore.SetValue | extensions/util/persistentstore.py:36-39 | an upsert of the single (guild, key) row |
| ExtUtilPersistentStore.PersistentGuildStore.DeleteValue | extensions/util/persistentstore.py:41-43 | exactly the (guild, key) row is removed |
| ExtUtilPersistentStore.PersistentGuildStore.GetKeys | extensions/util/persistentstore.py:45-57 | the selected keys of the guild, ascending, each once |
| ClubInfo.Lower | extensions/clubinfo.py:73 | lower-casing keeps the length, turns each letter A-Z into its own lower-case letter (code point plus 32) and changes no other character |
| ClubInfo.LowerIdempotent | extensions/clubinfo.py:73 | lower-casing twice is lower-casing once |
| ClubInfo.Admission | extensions/clubinfo.py:76-98 | an update is admitted exactly when the main type is text, the size is at most 5120 and fewer than 10 keys exist; otherwise the first failing check, in that order, is reported |
| ClubInfo.Charset | extensions/clubinfo.py:102 | the charset parameter of the content type, utf-8 when absent |
| ClubInfo.LastIndex | extensions/clubinfo.py:123 | the last position of a character, or -1 |
| ClubInfo.LastIndexAt | extensions/clubinfo.py:123 | those properties determine the position |
| ClubInfo.SplitExt | extensions/clubinfo.py:123 | stem and extension make up the file name; the extension is empty or one dot followed by neither dot nor slash; a non-empty extension has a non-dot before it in the last component; an empty one means no dot of the last component has a non-dot before it |
| ClubInfo.LastDotDecides | extensions/clubinfo.py:123 | when some dot of the last component has a non-dot before it, the last dot has one too |
| ClubInfo.ExtensionAtLastDot | extensions/clubinfo.py:123 | an extension of that shape starts at the last dot, after the last slash |
| ClubInfo.SplitExtUnique | extensions/clubinfo.py:123 | any division of the name that meets SplitExt's conditions is SplitExt's result, so those conditions define it |
| ClubInfo.RecordKind | extensions/clubinfo.py:123-129 | the record type is yaml exactly for the extensions .yaml and .yml, markdown otherwise |
| ClubInfo.RecordKindExamples | extensions/clubinfo.py:123-129 | club.yml and dir.v2/club.yaml are yaml; club.YAML, .yml and notes.yml.txt are markdown |
| ClubInfo.MakeRecord | extensions/clubinfo.py:106-129 | the record of an upload holds the decoded content, the upload's charset (utf-8 by default), what, and the user and time of the update; its type is yaml exactly for the extensions .yaml and .yml, markdown otherwise |
| ClubInfo.RawFilename | extensions/clubinfo.py:184-188 | the download is named what.yml exactly for a yaml record and what.md otherwise |
| ClubInfo.DownloadNameFollowsUpload | extensions/clubinfo.py:106-129 | a record made from an upload is downloaded as what.yml when the upload was .yaml or .yml, as what.md otherwise, and keeps the upload's charset |
| ClubInfo.AutocompleteLoweringIsHarmless | extensions/clubinfo.py:49-53 | lower-casing ASCII letters in the typed text never changes which keys the autocomplete offers |
| ClubInfo.Confirmed | extensions/clubinfo.py:145-155 | "yes" saves, "no" discards, anything else is a timeout |
| ClubInfo.ManageClubUpdate | extensions/clubinfo.py:63-158 | rejects in the order type, size, count; type and size rejections open no store; the record is written under the lower-cased what only on "yes", and no other row changes |
| ClubInfo.RawReplyFor | extensions/clubinfo.py:168-190 | no record when the stored value is missing or empty; otherwise the content and charset of the decoded record, sent under the file name its type calls for |
| ClubInfo.DownloadReturnsUpload | extensions/clubinfo.py:106-190 | when the codec reads back what it wrote, downloading an uploaded record gives back the decoded upload, its charset, and what.yml or what.md by the upload's extension |
| ClubInfo.ManageClubGet | extensions/clubinfo.py:164-177 | looks up what as given; replies with the content, charset and file name of the stored record (RawReplyFor), or no information; no row changes |
| ClubInfo.ManageClubDelete | extensions/clubinfo.py:201-217 | nothing is deleted when there is no record; otherwise exactly that row is removed and the content, charset and file name of the removed record are sent back |
| ClubInfo.Club | extensions/clubinfo.py:222-238 | looks up the lower-cased what and shows the decoded record, or reports nothing; no row changes |
| ClubInfo.GetWhatValues | extensions/clubinfo.py:49-53 | the guild's keys (guild 0 when there is none) that match `LIKE typed%`, so `%` and `_` in the typed text are wildcards and ASCII case is ignored; ascending; the store's schema step is the only change |
| SimpleBot.Bump | src/hamclubbot/extensions/util/simplebot.py:31-41 | one hook call raises its own counter by exactly one and leaves the other two |
| SimpleBot.Tally | src/hamclubbot/extensions/util/simplebot.py:60-86 | a hook call creates the entry of its command if needed, bumps it, and leaves every other command alone |
| SimpleBot.ReplayCounts | src/hamclubbot/extensions/util/simplebot.py:60-86 | after any run of hook calls there is an entry exactly for each command some hook fired for, and it counts each kind of call exactly |
| SimpleBot.HistogramOfUnseen | src/hamclubbot/extensions/util/simplebot.py:21-25 | a command no hook fired for counts zero everywhere |
| SimpleBot.TallyNeverDecreases | src/hamclubbot/extensions/util/simplebot.py:31-41 | no hook call lowers any counter |
| SimpleBot.StatsLine | src/hamclubbot/extensions/util/simplebot.py:27-29 | the log line "cmdstats command=C received=R completed=K errors=E" with the counters in decimal |
| SimpleBot.CommandStats.ToString | src/hamclubbot/extensions/util/simplebot.py:27-29 | `__str__` of the statistics object is StatsLine of its command and current counters |
| SimpleBot.StatsLineDeterminesCounters | src/hamclubbot/extensions/util/simplebot.py:27-29 | for one command, the logged cmdstats line determines all three counters |
| SimpleBot.StatsLineOfNewCommand | src/hamclubbot/extensions/util/simplebot.py:21-29 | a new command renders as "cmdstats command=club received=0 completed=0 errors=0" |
| SimpleBot.CommandStats.constructor | src/hamclubbot/extensions/util/simplebot.py:21-25 | new counters are all zero |
| SimpleBot.CommandStats.IncrCompleted | src/hamclubbot/extensions/util/simplebot.py:31-33 | completed rises by one, the others stay |
| SimpleBot.CommandStats.IncrReceived | src/hamclubbot/extensions/util/simplebot.py:35-37 | received rises by one, the others stay |
| SimpleBot.CommandStats.IncrErrors | src/hamclubbot/extensions/util/simplebot.py:39-41 | errors rises by one, the others stay |
| SimpleBot.Bot.constructor | src/hamclubbot/extensions/util/simplebot.py:51 | no statistics at start |
| SimpleBot.Bot.GetCommandStats | src/hamclubbot/extensions/util/simplebot.py:81-86 | the stored object of an existing command, or one new zeroed object stored under it; no other entry changes |
| SimpleBot.Bot.OnApplicationCommand | src/hamclubbot/extensions/util/simplebot.py:60-62 | the statistics change as Tally with a received call |
| SimpleBot.Bot.OnApplicationCommandCompletion | src/hamclubbot/extensions/util/simplebot.py:64-66 | the statistics change as Tally with a completed call |
| SimpleBot.Bot.OnApplicationCommandError | src/hamclubbot/extensions/util/simplebot.py:68-73 | the statistics change as Tally with an error |
| SimpleBot.SelectConfig | src/hamclubbot/extensions/util/simplebot.py:109-112 | the bot's entry for a non-empty name it holds, the empty dictionary otherwise |
| SimpleBot.SelectConfigDefaults | src/hamclubbot/extensions/util/simplebot.py:109-112 | a missing, empty or unknown name never fails and gives the empty dictionary |
| SimpleBot.NewCog | src/hamclubbot/extensions/util/simplebot.py:105-114 | a cog is built exactly when the configuration has an embeds entry, otherwise KeyError |
| ExtUtilSimpleBot.CommandStats.constructor | extensions/util/simplebot.py:17-21 | new counters are all zero |
| ExtUtilSimpleBot.CommandStats.IncrCompleted | extensions/util/simplebot.py:26-27 | completed rises by one, the others stay |
| ExtUtilSimpleBot.CommandStats.IncrReceived | extensions/util/simplebot.py:29-30 | received rises by one, the others stay |
| ExtUtilSimpleBot.CommandStats.IncrErrors | extensions/util/simplebot.py:32-33 | errors rises by one, the others stay |
| ExtUtilSimpleBot.CommandStats.ToString | extensions/util/simplebot.py:23-24 | the legacy `__str__` is the same StatsLine of its command and counters |
| ExtUtilSimpleBot.Bot.constructor | extensions/util/simplebot.py:44 | no statistics at start |
| ExtUtilSimpleBot.Bot.GetCommandStats | extensions/util/simplebot.py:67-72 | get-or-insert with one entry per command string |
| ExtUtilSimpleBot.Bot.OnApplicationCommand | extensions/util/simplebot.py:52-53 | the statistics change as Tally with a received call |
| ExtUtilSimpleBot.Bot.OnApplicationCommandCompletion | extensions/util/simplebot.py:55-56 | the statistics change as Tally with a completed call |
| ExtUtilSimpleBot.Bot.OnApplicationCommandError | extensions/util/simplebot.py:58-60 | the statistics change as Tally with an error |
| ExtUtilSimpleBot.SelectConfig | extensions/util/simplebot.py:94-97 | the entry for a truthy present name, the empty dictionary for no name or an empty one |
| ExtUtilSimpleBot.SelectConfigAgrees | extensions/util/simplebot.py:94-97 | the legacy selection equals the packaged one on every input |
| RootSimpleBot.SelectConfig | simplebot.py:40-43 | the first cog's rule: `{}` for no name or an empty one, the bot's entry for a name it holds, KeyError for any other name |
| RootSimpleBot.NewCog | simplebot.py:36-45 | the named configuration is read before the embeds entry, so an unknown name is the KeyError raised; otherwise a cog exactly when embeds is present |
| RootSimpleBot.StrictSelectionAgrees | simplebot.py:40-43 | wherever the first rule succeeds it selects what the packaged rule selects and builds the same cog; where it raises, the packaged rule gives `{}` |

## Left out

- Network, SQLite connections, transactions and I/O errors. The fetch is a parameter, either a response or an exception. The database file is a shared `Database` object. An existing file with a non-zero `USER_VERSION` is taken to hold the `storage` table.
- Concurrency and `async`: overlapping `get_url` calls and the executor that runs `requests.get` are not modelled. Each call runs to completion.
- Time as floats and `datetime`: times are integer seconds, passed in as `now`.
- Logging, the five-minute `log_command_stats` loop, `on_ready`, `on_unknown_application_command`, `uptime`, `owner_id` and `SimpleCog._embed`: they only log or format for Discord.
- Discord replies, embeds and views. The text of each reply is not modelled, only which reply is chosen. The preview embed (`_generate_embed`, which parses YAML and may raise before the confirmation) is not modelled. The confirmation view becomes the `selection` parameter.
- `mimeparse.parse_mime_type`, the decoding of the upload with its charset, `json.dumps` and `json.loads`. The parsed MIME type and the decoded text are fields of `ClubInfo.Attachment`, and the codec functions are parameters. A malformed stored record and parse or decode errors are not modelled.
- ClubInfo.ManageClubUpdate: `ctx.guild_id` can be None outside a guild. The model takes an integer guild for update, get, delete and club; only the autocomplete maps a missing guild to 0.
- ClubInfo.Lower: folds only the ASCII letters A-Z. Python's `str.lower` also lower-cases other letters.
- ClubInfo.AutocompleteLoweringIsHarmless: holds for ASCII text only. Python lowers É to é, but LIKE folds only A-Z, so for non-ASCII typed text the lowered pattern can miss a key the original would match.
- ClubInfo.GetWhatValues: the pattern is lowered by Lower, which folds only A-Z. For non-ASCII typed text Python's `lower()` may give a different pattern and so a different listing.
- ClubInfo.MakeRecord: the `last_updated` timestamp is the integer `now` rather than the float from `time.time()`.
- Webcache.CacheEntry.SetExtra: `extra` can hold any Python object. The model holds optional bytes, as the callers store rendered images.
- The ClubInfo constructor's check for `database_path` and the bot's own `config if config else {}`: both are configuration start-up outside the modelled commands.
- SimpleBot.SelectConfig: `config_name` is an optional string. Other truthy or falsy Python values as a name are not modelled.
- The root `simplebot.py` has no statistics; of it only the configuration rule of `SimpleCog` is modelled (`RootSimpleBot`). `extensions/basecog.py` lines 9-14 apply the same rule in `Cog.__init__`; `RootSimpleBot.NewCog` describes it too and is not repeated. The rest of both files is start-up, embed formatting and uptime.
- `bot.py`, `extensions/about.py`, `extensions/pota.py`, both `conditions.py` and both `views.py` are not part of this model. They hold only start-up, formatting and Discord UI code.

## Findings

| source | as written | input that shows it | evidently intended | confidence | as-written member | corrected member |
|---|---|---|---|---|---|---|
| webcache.py:34-35 | `cacheRelatedData(url, None)` tests for an `'extra'` key in `self.__cache['url']`, the entry under the literal key "url", not the entry for `url` | a cache holding only "http://a" with an extra value; `cacheRelatedData("http://a", None)` raises KeyError | test and delete the `'extra'` key of `self.__cache[url]`, so clearing never raises | high, not executed | RootWebcache.RelatedDataAsWritten, RootWebcache.RelatedDataLiteralKeyCounterexample | RootWebcache.RelatedDataIntended, RootWebcache.IntendedClearLeavesNoValue |
