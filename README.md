# Football simulator persistence and utility core, in Dafny

This project models the sequential core of the football simulator's browser
modules and proves what they promise:

- `SafeStorage`: the namespaced `localStorage` wrapper with a retry-on-quota
  `set`, the largest-fifth `cleanup`, `clear` and `getUsage`. It includes
  `get`'s decode-or-fall-back reading.
- `DataCompressor`: percent-encoding followed by base64 (`btoa`), and its
  inverse.
- `DataManager`: export envelopes, import validation and write-back, the
  `backup_latest` snapshot and its restore, the auto-backup interval
  handle, and the failures its `catch` blocks log.
- `UndoManager`: the two stacks capped at 50 entries.
- `KeyboardShortcuts`: the lower-cased registry, the combo string and the
  `keydown` dispatch rule.
- The index window and spacers of `virtualScroll`.
- `ErrorHandler`: the error buffer capped at 100 entries, persisted under
  `last_error`.
- `Security`: the name validators, the range check and `sanitize`.

## Browser built-ins

The browser's built-ins are given concrete definitions, so that every fact
the program relies on is proved rather than taken on trust:

- `localStorage` is a class over a `map<string, string>`. It has a quota on
  the total size and a flag for a browser that refuses access. Every call
  then throws a `SecurityError`.
- `JSON.stringify` and `JSON.parse` (RFC 8259) are a printer and a parser
  over a `Value` datatype. Objects are association lists in property order.
  `Parse(Stringify(v)) == Some(v)` is proved for every value whose objects
  have distinct keys.
- The following are defined exactly enough to prove each decoder the
  inverse of its encoder:
  - UTF-8 (RFC 3629);
  - `encodeURIComponent` / `decodeURIComponent` (section 2.1 of RFC 3986);
  - `btoa` / `atob` (section 4 of RFC 4648, with the forgiving decoder of
    the HTML Living Standard).
- A text node's `innerHTML` is the escaping of section 13.3 of the HTML
  Living Standard.

## Modules

| file | module | models |
|---|---|---|
| base.dfy | `Base` | `Option`, `Result` |
| assoc.dfy | `Assoc` | JavaScript objects and `Map`s as ordered association lists |
| json.dfy | `Json` | `JSON.stringify` / `JSON.parse` and their round trip |
| codec.dfy | `Codec` | UTF-8, percent-encoding, base64 |
| storage.dfy | `Storage` | `localStorage`, `SafeStorage`, `DataCompressor` |
| data_manager.dfy | `DataManagement` | `DataManager` and the page's interval timers |
| capped.dfy | `Capped` | the "push, then shift if too long" buffer |
| utils.dfy | `Utils` | `UndoManager`, `KeyboardShortcuts`, `virtualScroll` |
| errors.dfy | `Errors` | `ErrorHandler` |
| security.dfy | `Security` | `sanitize` and `validate` |

## Design decisions

- **Inputs become parameters.** The clock (`Date.now()`,
  `toISOString()`), the answer to `confirm()`, the chosen file's text and
  `window.location.href` are parameters of the operations that read them.
- **Key order is left open.** `Object.keys(localStorage)` returns the keys
  in an order the browser chooses. The loops over it therefore take the keys
  in any order, and their contracts do not depend on that order.
- **Declined restore.** `restoreBackup` returns `true` after a declined
  `confirm()`, and `RestoreBackup` states exactly that.
- **Nested backups.** A backup nests the previous `backup_latest` record
  inside itself (`BackupNests`).
- **JSON-looking strings.** A string that is itself JSON text comes back
  from the store as the value it spells (`JsonLookingStringChanges`).

## Model

| member | source | states |
|---|---|---|
| `Storage.LocalStorage.Keys` | modular/js/core/storage.js:92 | `Object.keys(localStorage)`: fails exactly when access is refused, otherwise lists every key exactly once |
| `Storage.LocalStorage.GetItem` | modular/js/core/storage.js:22 | `getItem`: a `SecurityError` exactly when access is refused, `null` exactly for a missing key, otherwise the stored text |
| `Storage.LocalStorage.SetItem` | modular/js/core/storage.js:49 | `setItem`: a refusing store or an entry over the quota throws and changes nothing; otherwise the key now holds the value |
| `Storage.LocalStorage.RemoveItem` | modular/js/core/storage.js:78 | `removeItem`: removes the one key; removing a missing key is not an error |
| `Storage.LocalStorage.SizeWith` | modular/js/core/storage.js:49 | the loop computes the quota the map would use after the write, a sum over all entries |
| `Storage.Decode` | modular/js/core/storage.js:26-30 | the result is what `JSON.parse` gives when the text parses, and the raw text as a string when it does not |
| `Storage.StoreRoundTrip` | modular/js/core/storage.js:26-47 | a value written and read back is unchanged, unless it is a string that is itself JSON text, which comes back as the value it spells |
| `Storage.JsonLookingStringChanges` | modular/js/core/storage.js:47 | the string `"42"` is read back as the number 42 |
| `Storage.Read` | modular/js/core/storage.js:19-35 | `get` gives the caller's default when the prefixed key is missing or the store refuses access, and otherwise the decoded entry; a valid default gives a valid result |
| `Storage.SafeStorage.Get` | modular/js/core/storage.js:19-35 | `get` reads only `football_sim_` + key and agrees with `Read` |
| `Storage.SafeStorage.Set` | modular/js/core/storage.js:44-68 | writes the serialized value under the prefixed key; keys outside the namespace are untouched; at most 4 write attempts (`MaxAttempts`); a failed write leaves a sub-map; every retry follows a `cleanup`, so once a retry has happened a namespace that held any key has lost at least one key other than the written one (and, when the write still fails, at least one key outright); `quotaExceeded` is cleared by success and set after a quota failure it retried |
| `Storage.SafeStorage.Remove` | modular/js/core/storage.js:75-84 | removes exactly the prefixed key; fails only when access is refused |
| `Storage.SafeStorage.Clear` | modular/js/core/storage.js:90-102 | removes exactly the keys carrying the prefix; every other entry keeps its value |
| `Storage.SafeStorage.GetUsage` | modular/js/core/storage.js:108-120 | `bytes` is the sum of the UTF-8 sizes of the namespace's values |
| `Storage.UsageIgnoresForeign` | modular/js/core/storage.js:111 | entries outside the namespace add nothing to the usage |
| `Storage.SafeStorage.MeasureOwn` | modular/js/core/storage.js:127-135 | lists each key of the namespace exactly once, with its value's UTF-8 size |
| `Storage.SortDesc` | modular/js/core/storage.js:138 | the sort is size-descending and a permutation of its input |
| `Storage.InsertDesc` | modular/js/core/storage.js:138 | inserting a row keeps the list descending and adds exactly that row |
| `Storage.EvictCount` | modular/js/core/storage.js:139 | `Math.ceil(n * 0.2)`: at most n, at least 1 when n > 0, and the least r with 5r >= n |
| `Storage.SafeStorage.EvictRows` | modular/js/core/storage.js:140-142 | removes exactly the keys of the first t rows |
| `Storage.SafeStorage.Cleanup` | modular/js/core/storage.js:125-148 | evicts exactly `EvictCount(n)` of the namespace's n entries; every evicted entry is at least as large as every entry of the namespace kept; other keys are untouched |
| `Storage.KeysOfPermutation` | modular/js/core/storage.js:138 | sorting neither loses nor invents a key |
| `Storage.EvictedKeys` | modular/js/core/storage.js:140-142 | removing the first t rows' keys evicts exactly those keys from the namespace |
| `Storage.EvictedLargest` | modular/js/core/storage.js:137-142 | for a size-descending list, every evicted entry is at least as large as every retained one |
| `Storage.Decompress` | modular/js/core/storage.js:177-185 | input comes back unchanged when it is not base64, and when its base64 decodes to text that is not valid percent-encoding |
| `Storage.CompressRoundTrip` | modular/js/core/storage.js:160-185 | `decompress(compress(v))` is the string itself, or the JSON text of a non-string |
| `Storage.DecompressRejects` | modular/js/core/storage.js:177-185 | one example of each fallback: `"a"` (not base64) and `"JQ=="` (the base64 of `%`, not valid percent-encoding) come back as they are |
| `Json.Parse` | modular/js/core/storage.js:27 | every value `JSON.parse` returns has objects with distinct keys |
| `Json.RoundTrip` | modular/js/core/storage.js:27-47 | `JSON.parse(JSON.stringify(v))` is `v` |
| `Json.StringifyInjective` | modular/js/core/storage.js:47 | two values with the same JSON text are equal |
| `Codec.Utf8Size` | modular/js/core/storage.js:112 | the blob size of a string is at least its length |
| `Codec.Utf8SizeAppend` | modular/js/core/storage.js:112 | blob sizes add up over concatenation |
| `Codec.EncodeURIComponent` | modular/js/core/storage.js:165 | the percent-encoding is pure ASCII, so `btoa` always accepts it |
| `Codec.PercentRoundTrip` | modular/js/core/storage.js:165-180 | `decodeURIComponent(encodeURIComponent(s)) == s` |
| `Codec.Btoa` | modular/js/core/storage.js:165 | `btoa` fails exactly on a character above U+00FF |
| `Codec.Atob` | modular/js/core/storage.js:179 | every character `atob` returns stands for one byte |
| `Codec.Base64RoundTrip` | modular/js/core/storage.js:165-179 | `atob(btoa(s)) == s` for every string `btoa` accepts |
| `Assoc.Put` | modular/js/main.js:77 | `obj[k] = v`: k maps to v, every other lookup is unchanged, a fresh key is appended at the end and the entries before it are as they were |
| `Assoc.PutInPlace` | modular/js/main.js:77 | an existing key is overwritten where it stands: same length, same key at every position, and every other entry unchanged |
| `Assoc.Cons` | modular/js/main.js:47-52 | an object literal: its keys are the literal key plus the rest, its lookups agree, distinct exactly when the key is fresh |
| `Assoc.RemoveKeys` | modular/js/core/utils.js:336 | `delete`: removes exactly the keys, keeps every other lookup, and each remaining entry is one of the list's |
| `Assoc.RemoveKeysAppend` | modular/js/core/utils.js:336 | removal works entry by entry and keeps the order of what remains: it distributes over concatenation |
| `DataManagement.PartialEnvelope` | modular/js/main.js:45-70 | an envelope is an object with distinct keys whose `type` is the kind and whose `timestamp` is the export time |
| `DataManagement.TournamentEnvelope` | modular/js/main.js:46-53 | the tournament export has exactly the keys `type`, `timestamp`, `tournament`, `manager`, holding the stored tournament and profile |
| `DataManagement.SeasonEnvelope` | modular/js/main.js:55-62 | the season export has exactly the keys `type`, `timestamp`, `season`, `career`, holding the stored season and career |
| `DataManagement.TeamsEnvelope` | modular/js/main.js:64-70 | the teams export has exactly the keys `type`, `timestamp`, `customTeams`, holding the stored teams or `[]` when they are falsy |
| `DataManagement.TeamsDefault` | modular/js/main.js:68 | `customTeams` is `[]` whenever the stored value is missing or falsy |
| `DataManagement.EnvelopeValid` | modular/js/main.js:45-70 | every partial envelope is a value `JSON.parse` can return |
| `DataManagement.DataManager.constructor` | modular/js/main.js:31-33 | no interval handle and no backup time; the `ErrorHandler` logs to the same storage |
| `DataManagement.DataManager.CollectOwn` | modular/js/main.js:74-78 | the loop maps every key of the namespace, and nothing else, to the value `get` decodes for it |
| `DataManagement.ShortKeysIn` | modular/js/main.js:76 | s is a short key of the store exactly when `football_sim_` + s is stored |
| `DataManagement.FullExportOf` | modular/js/main.js:72-81 | a full export has the namespace's short keys plus `type = "full"` and the timestamp, which overwrite stored keys of those names |
| `DataManagement.DataManager.Export` | modular/js/main.js:40-102 | a partial kind yields its envelope; any other kind is a full export, failing only when the store cannot be listed; the file name embeds the requested kind; the store is unchanged; a failure is logged with `type: 'export'` (the buffer gains its record) and a success logs nothing |
| `DataManagement.ImportFields` | modular/js/main.js:126-130 | a file is accepted exactly when it parses to an object with a truthy `type` and a truthy `timestamp` |
| `DataManagement.PartialExportAccepted` | modular/js/main.js:84-130 | every partial export with a non-empty timestamp is accepted by `import` with its own fields |
| `DataManagement.FullExportAccepted` | modular/js/main.js:84-130 | every full export with a non-empty timestamp is accepted by `import` |
| `DataManagement.OverlayAt` | modular/js/main.js:133-143 | after the writes, each written short key holds its field's serialized value, and every other key keeps its entry |
| `DataManagement.DataManager.WriteFields` | modular/js/main.js:133-143 | the write-back loop leaves foreign keys untouched and, when every write fits, ends as `Overlay` |
| `DataManagement.DataManager.Import` | modular/js/main.js:108-168 | no file: nothing is written or logged; an accepted file writes every field except `type` and `timestamp`, the full and partial kinds alike, and logs nothing; a rejected file is logged with `type: 'import'`: the buffer gains its record, `last_error` holds it when the write fits, no other key gains or changes a value (a `cleanup` may evict some), and foreign keys are untouched |
| `DataManagement.ImportError` | modular/js/main.js:125-130 | a rejected file that is JSON other than `null` is reported as 'Invalid data format'; otherwise the browser's own error is reported |
| `DataManagement.NotJsonRejected` | modular/js/main.js:125 | the text `hello` is rejected |
| `DataManagement.NoTimestampRejected` | modular/js/main.js:128-130 | the file `{"type":"full"}` is rejected |
| `DataManagement.RejectedImportWrites` | modular/js/main.js:154-159 | for both rejected files, the store `Import` then promises differs from the old one by a new `last_error` key |
| `DataManagement.DataManager.ImportAtomic` | modular/js/main.js:108-168 | `import` made all-or-nothing: a rejected file is kept in the error buffer and changes no stored entry; otherwise as `Import` |
| `DataManagement.SnapshotOf` | modular/js/main.js:176-184 | the snapshot is the namespace's short keys with their decoded values plus `timestamp` |
| `DataManagement.DataManager.Backup` | modular/js/main.js:174-195 | succeeds exactly when the store can be listed; writes the snapshot under `backup_latest` and records the backup time; a failure changes no entry and is logged with `type: 'backup'`, and a success logs nothing |
| `DataManagement.BackupNests` | modular/js/main.js:176-185 | a second backup holds the first one inside it, under `backup_latest` |
| `DataManagement.DataManager.RestoreBackup` | modular/js/main.js:201-238 | no backup, or one without a truthy timestamp, gives `false` with no writes; otherwise `true`; declined: no writes; confirmed: every field but `timestamp` written back |
| `DataManagement.BackupFound` | modular/js/main.js:185-205 | the record a backup writes reads back as the snapshot, whose timestamp passes the restore check |
| `DataManagement.RestoreKeepsKeys` | modular/js/main.js:217-221 | a restore right after a backup neither adds nor removes a key |
| `DataManagement.RestoreReadsBack` | modular/js/main.js:176-221 | after backup then confirmed restore, every short key but `backup_latest` and `timestamp` decodes to its value at backup time, unless it held a JSON-looking string |
| `DataManagement.StableReadBack` | modular/js/core/storage.js:26-47 | text that is not a JSON-looking string decodes to the same value after being written back |
| `DataManagement.RestoreBackupKey` | modular/js/main.js:217-221 | the restore rewrites `backup_latest` with the backup taken before, when there was one |
| `DataManagement.TimerHost.SetInterval` | modular/js/main.js:248-250 | `setInterval` hands out a fresh handle and registers the period |
| `DataManagement.TimerHost.ClearInterval` | modular/js/main.js:245 | `clearInterval` drops exactly that handle |
| `DataManagement.DataManager.StartAutoBackup` | modular/js/main.js:243-253 | any previous interval is cleared; exactly one five-minute interval is live, under a fresh handle |
| `DataManagement.DataManager.StopAutoBackup` | modular/js/main.js:258-264 | no interval is live and the handle is null; with none running nothing changes |
| `Capped.Push` | modular/js/core/utils.js:246-256 | push then shift keeps the newest `cap` of the old contents plus the new element, which is last |
| `Capped.PushAllNewest` | modular/js/core/errors.js:58-63 | any number of pushes leave exactly the newest `cap` elements, in arrival order |
| `Utils.AfterSave` | modular/js/core/utils.js:245-256 | the new entry is on top, the oldest entry is dropped beyond 50, the redo stack is emptied, and the 50 bound is kept |
| `Utils.AfterUndo` | modular/js/core/utils.js:265-274 | an empty undo stack returns null and changes nothing; otherwise the top entry moves to the redo stack and its state is returned |
| `Utils.AfterRedo` | modular/js/core/utils.js:280-289 | the mirror image of undo |
| `Utils.UndoThenRedo` | modular/js/core/utils.js:265-289 | redo after a successful undo returns the same state and restores both stacks |
| `Utils.RedoThenUndo` | modular/js/core/utils.js:265-289 | undo after a successful redo returns the same state and restores both stacks |
| `Utils.SavesKeepNewest` | modular/js/core/utils.js:245-256 | any sequence of saves leaves the newest 50 entries, oldest first |
| `Utils.UndoManager.constructor` | modular/js/core/utils.js:236-237 | both stacks start empty |
| `Utils.UndoManager.SaveState` | modular/js/core/utils.js:245-259 | the stacks become `AfterSave` of the old ones; the bound of 50 entries in total is preserved |
| `Utils.UndoManager.Undo` | modular/js/core/utils.js:265-274 | stacks and result as `AfterUndo` says; the bound is preserved |
| `Utils.UndoManager.Redo` | modular/js/core/utils.js:280-289 | stacks and result as `AfterRedo` says; the bound is preserved |
| `Utils.UndoManager.Clear` | modular/js/core/utils.js:294-297 | both stacks are empty |
| `Utils.UndoManager.GetStatus` | modular/js/core/utils.js:303-310 | `canUndo` iff `undoCount > 0`, `canRedo` iff `redoCount > 0`, the counts being the stack lengths |
| `Utils.Lower` | modular/js/core/utils.js:328 | `toLowerCase` keeps the length and every `+`, leaves no upper-case letter, and fixes a lower-case string |
| `Utils.ModifierPrefix` | modular/js/core/utils.js:373-375 | the modifiers in the order ctrl, alt, shift, each followed by `+` |
| `Utils.KeyCombo` | modular/js/core/utils.js:371-378 | the combo is the modifier prefix followed by the lower-cased key, and is lower case |
| `Utils.ComboInjective` | modular/js/core/utils.js:371-378 | for keys other than `+`, two events give the same combo exactly when they agree on ctrl-or-meta, alt, shift and the lower-cased key |
| `Utils.Dispatch` | modular/js/core/utils.js:345-360 | a handler fires exactly when shortcuts are enabled, the target is not INPUT or TEXTAREA and the combo is registered; it is the registered handler |
| `Utils.RegisteredComboFires` | modular/js/core/utils.js:328-358 | a shortcut registered under any spelling of a combo fires on that combo |
| `Utils.UnregisteredComboSilent` | modular/js/core/utils.js:336-356 | after `unregister`, no spelling of the combo fires |
| `Utils.Listings` | modular/js/core/utils.js:384-389 | one row per registration in registration order, listing exactly the registered keys with their descriptions |
| `Utils.KeyboardShortcuts.constructor` | modular/js/core/utils.js:317-319 | no shortcuts, enabled, not initialized |
| `Utils.KeyboardShortcuts.Register` | modular/js/core/utils.js:327-329 | the lower-cased key now maps to the handler and description, overwriting in place; keys stay distinct and lower case |
| `Utils.KeyboardShortcuts.Unregister` | modular/js/core/utils.js:335-337 | removes only the lower-cased key |
| `Utils.KeyboardShortcuts.Init` | modular/js/core/utils.js:342-364 | the listener is added once; a second call does nothing |
| `Utils.KeyboardShortcuts.GetAll` | modular/js/core/utils.js:384-389 | lists exactly the registered keys, each with its description |
| `Utils.KeyboardShortcuts.SetEnabled` | modular/js/core/utils.js:395-397 | sets the flag and changes nothing else |
| `Utils.VisibleItems` | modular/js/core/utils.js:159 | `Math.ceil(containerHeight / itemHeight)`: the least count of rows covering the container, 0 for a container of height 0 |
| `Utils.ScrollWindow` | modular/js/core/utils.js:163-164 | `startIndex` is exactly `buffer` rows before the first visible row, clamped at 0; `endIndex` is at most `items.length` and at most `visibleItems + 2 * buffer` rows after it |
| `Utils.WindowCoversViewport` | modular/js/core/utils.js:159-164 | with at least one buffer row, every row showing in the viewport is rendered |
| `Utils.ZeroBufferGap` | modular/js/core/utils.js:159-164 | without buffer rows a partly scrolled-in last row is not rendered |
| `Utils.RenderRange` | modular/js/core/utils.js:175-178 | at most one element per window index, each one rendered from a row of the window |
| `Utils.RenderRangeComplete` | modular/js/core/utils.js:175-178 | every row of the window whose `renderFunc` gives an element has that element drawn |
| `Utils.RenderRangeSplit` | modular/js/core/utils.js:174-178 | rows come out in index order: the rows of a window are those of its first part followed by those of the rest |
| `Utils.AllRowsRender` | modular/js/core/utils.js:174-178 | when every row of the window renders, exactly one element per index is drawn |
| `Utils.RenderRows` | modular/js/core/utils.js:174-178 | the loop appends, for each index of the window in turn, the row `renderFunc` gives when it gives one: the result is `RenderRange` |
| `Utils.Render` | modular/js/core/utils.js:162-185 | the spacers stand for the rows outside the window; the rows are `RenderRange`; when every row of the window renders, there is one per index and the heights add up to the whole list's |
| `Errors.ErrorRecord` | modular/js/core/errors.js:52-56 | the record has the caller's fields plus `timestamp` and `url`, which override caller fields of the same names |
| `Errors.LogKeepsNewest` | modular/js/core/errors.js:58-63 | logging keeps exactly the newest 100 records, oldest first |
| `Errors.HundredFiftyLogs` | modular/js/core/errors.js:58-63 | after 150 records the buffer holds records 51 to 150, in order |
| `Errors.ErrorHandler.constructor` | modular/js/core/errors.js:12-14 | empty buffer, not initialized |
| `Errors.ErrorHandler.Init` | modular/js/core/errors.js:19-45 | the two listeners are added once; a second call does nothing |
| `Errors.ErrorHandler.Log` | modular/js/core/errors.js:51-72 | the buffer becomes the newest 100 of the old buffer plus the record; `last_error` holds the record when the write fits; no other key gains or changes a value (a `cleanup` may evict some), foreign keys are untouched, and a refusing store is unchanged |
| `Errors.ErrorHandler.Record` | modular/js/core/errors.js:52-63 | the buffer part of `log`: the buffer becomes the newest 100 of the old buffer plus the record built from the caller's fields, `timestamp` and `url` |
| `Errors.ErrorHandler.GetErrors` | modular/js/core/errors.js:78-80 | the buffer in insertion order, at most 100 records |
| `Errors.ErrorHandler.ClearErrors` | modular/js/core/errors.js:85-87 | the buffer is empty |
| `Security.FullMatch` | modular/js/core/security.js:95 | the full match of `/^[C]+$/` holds iff s is non-empty and every character is in the class |
| `Security.ManagerName` | modular/js/core/security.js:94-97 | holds iff s is non-empty, every character is an ASCII letter, digit or `\s` white space, and the length is 2 to 30 |
| `Security.TeamName` | modular/js/core/security.js:104-107 | holds iff s is non-empty, every character is an ASCII letter, digit, `\s` white space, `-` or `'`, and the length is at most 50 |
| `Security.ManagerNameIsTeamName` | modular/js/core/security.js:94-107 | every valid manager name is a valid team name |
| `Security.EmptyNameRejected` | modular/js/core/security.js:94-107 | both validators reject the empty string |
| `Security.MarkupRejected` | modular/js/core/security.js:94-107 | a name containing `<` is rejected by both validators |
| `Security.ValidNumber` | modular/js/core/security.js:116-119 | on an integer, holds iff min <= value <= max (no upper bound for `Infinity`) |
| `Security.DefaultRange` | modular/js/core/security.js:116 | with the defaults, exactly the non-negative integers pass |
| `Security.Escape` | modular/js/core/security.js:18-19 | the serialized text node holds no `<`, `>` or no-break space, and is no shorter than the text |
| `Security.Sanitize` | modular/js/core/security.js:15-20 | `''` for the empty string; otherwise the result contains no `<` or `>` |
| `Security.SanitizeRoundTrip` | modular/js/core/security.js:15-20 | un-escaping what `sanitize` returns gives its argument back |
| `Security.EscapeRoundTrip` | modular/js/core/security.js:18-19 | un-escaping the escaped text gives the text back |

## Findings

| source | as written | input that shows it | evidently intended | confidence | as-written member | corrected member |
|---|---|---|---|---|---|---|
| modular/js/main.js:157 | a rejected import file is logged with `ErrorHandler.log`, which writes `last_error` to storage (modular/js/core/errors.js:71) and, when the store is full, evicts entries through `cleanup` | the file text `hello` or `{"type":"full"}`, on a store with room and no `football_sim_last_error` entry: the store gains that entry | a file that fails parsing or validation changes no stored entry, the all-or-nothing import that validating before any write aims at | medium, not executed; the logging call itself is deliberate | `DataManagement.DataManager.Import`, `DataManagement.RejectedImportWrites` | `DataManagement.DataManager.ImportAtomic` |

`ImportAtomic` keeps the rejection in the error buffer through
`ErrorHandler.Record`, but writes nothing to storage. Nothing else in the
model calls `import`.

## Left out

- **JSON subset.** Numbers are integers only; floating-point numbers,
  exponents and `-0` are not modelled. `Json.Num` is an unbounded integer,
  whereas a JavaScript number is a double: an integer beyond 2^53 is not
  kept exactly (`9007199254740993` parses as `9007199254740992`), so
  `Parse` and `RoundTrip` are exact where the source rounds. The parser does not accept `\u`
  escapes of surrogate halves. The model does not reproduce JavaScript's
  ordering of integer-like property names before other keys.
- **Pretty-printing.** The export's `JSON.stringify(data, null, 2)`
  indentation is not modelled. The envelope is modelled as a value, which
  `import` reads back the same either way.
- **Browser and UI effects.** These are not modelled: the Blob download,
  `URL.createObjectURL`, the file picker and `file.text()`,
  `window.location.reload`, the `Toast` and `Loading` calls,
  `window.showUtilityMessage`, `console` logging, and the `localhost` check
  in `log`.
- **Storage usage figures.** The `kb` and `mb` figures of `getUsage` and
  `DataCompressor.getRatio` are floating-point values and are not modelled.
- **Storage quota accounting.** The quota charges an entry the length of
  its key plus the length of its value. Real browsers' accounting is
  unspecified.
- `Utils.Lower`: `toLowerCase` is modelled on ASCII letters only, because
  Unicode case mapping is outside this model.
- **`deepClone`.** It is a value copy, since `Value` is immutable.
- **Shared references.** `undo()` and `redo()` return the state object that
  stays on the other stack, and `getErrors()` returns the live `errors`
  array. A caller that mutates what it gets back changes the history or
  the buffer. The model's values are immutable, so it cannot show this
  aliasing.
- **The event loop.** Timers, the `throttle`d scroll listener, the
  interleaving of the auto-backup with an asynchronous import, and the
  handlers behind the listeners are not modelled. `Init` counts the
  listeners it adds.
- **Error-log clock and page.** `new Date().toISOString()` and
  `window.location.href` are parameters. `export` and `backup` read the
  clock once, and their log entry carries that same time.
- **Caught errors.** The `message` and `stack` of the errors the browser
  throws (a refused `localStorage`, `JSON.parse` on text that is not JSON)
  are parameters (`Thrown`). A `stack` the engine leaves `undefined` is not
  modelled.
- **Unhandled rejections.** When the caller of `import` does not handle
  the rejected promise, the `unhandledrejection` listener of
  `ErrorHandler.init` logs it a second time. The callers of `import` are not
  part of this model.
- **`restoreBackup`'s catch.** No modelled step of `restoreBackup` throws:
  `SafeStorage.get` and `set` catch their own errors. Its `catch` block is
  therefore not modelled.
- **`virtualScroll`'s closures.** `update` and `destroy` are not modelled.
  Heights are whole pixels and `itemHeight` is positive.
- `Utils.ComboInjective`: stated for keys other than `+`, because with `+`
  as the key two different events can give the same combo (`shift++` is
  both Shift with `+`, and `shift` then `+`).
- `Utils.ZeroBufferGap`: records that a buffer of 0 can leave a partly
  visible row unrendered. The source's default buffer is 5.
- **`sanitize` on non-strings.** Non-string input and its `String()`
  coercion are not modelled. `Sanitize` takes a string, whose only falsy
  value is `''`.
- `Security.ValidNumber`: the `Number()` conversion, `NaN` and fractional
  inputs are not modelled. The value and bounds are integers, and `None`
  stands for the default `max` of `Infinity`.
- **Strings with unpaired surrogates.** A JavaScript string can hold a lone
  surrogate such as `"\uD800"`; `encodeURIComponent` then throws `URIError`
  and `compress` returns its input. Such strings cannot be Dafny strings,
  whose characters are Unicode scalar values. The failure branch of
  `Compress` is written out, but no string the model admits reaches it:
  each is percent-encoded to ASCII, which `btoa` accepts.
- `Storage.EvictCount`: `Math.ceil(n * 0.2)` is computed exactly as
  `(n + 4) / 5`. The floating-point product `n * 0.2` is not modelled.
- `DataManagement.DataManager.Import`: the code's two branches, `full` and
  any other `type`, are identical, and are modelled as one.
- `Storage.SafeStorage.Set`: the number of write attempts is a ghost
  out-parameter. The source returns only the boolean.
- **Shortcut handlers.** A handler is a natural-number identifier, because
  functions cannot be compared. Calling the handler and `preventDefault`
  are the `Some` result of `Dispatch`.
- **The error listeners.** The `window` listeners of `ErrorHandler.init`
  are not modelled beyond the `initialized` guard.
