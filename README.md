# Local record stores of the agenda and multimedia-journal apps

This project is a Dafny model of the local persistence logic of two small mobile
apps. The model covers four pieces:

- **Account registry** (`ejercicio_dps/utils/auth.js`). The `users` key holds every
  account and is seeded with three fixed accounts on first use. Registration rejects
  a taken email, then a taken username. Login stores the first account whose email
  and password both match under the `currentUser` key. Logout removes that key.
- **Registration form** (`ejercicio_dps/screen/RegisterScreen.js`). An ordered chain
  of guards runs first: every field filled, then passwords equal, then at least
  6 characters. Only then is an account with a timestamp id built and handed to
  the registry.
- **Per-user event store** (`ejercicio_dps/utils/events.js`). Each user's events are
  one list under the key `events_<userId>`. Add appends with a timestamp id. Update
  is a `map` that replaces matching events by `{...fields, id}`. Delete is a `filter`.
- **Media entry index** (`desafio2_ejercicio2/App.js`). A save moves the capture into
  the media directory and then appends an entry to `entries.json`. The Multimedia
  screen shows the index reversed (newest first) and filters it by type or by note
  text. The file-list screen filters by note text. Delete removes the file and then
  writes back the filtered screen list.

Modules:
- `Wrappers`: `Option` and `Result`.
- `Seqs`: `filter` and `reverse` with their laws.
- `Decimal`: `Date.now().toString()` ids.
- `Accounts`: the pure registry logic and the class `Registry` over the two keys.
- `RegisterForm`: the guard chain and the submit handler.
- `Events`: the pure `Replace` and `Remove`, and the class `EventStore` over the
  key-to-list map.
- `Media`: the entry construction, the search predicates and the class `Journal`.
  `Journal` holds the device's file paths, the index file and the screen's list.

How the environment is modelled:
- The key-value store and the file system are Dafny fields: an `Option` per key,
  a `map` from key to list, and a `set` of file paths.
- Collections are stored as sequences, not JSON text.
- Timestamps (`Date.now()`) and ISO dates (`new Date().toISOString()`) are
  parameters of the operations.
- Each operation is atomic.

Two behaviours of the source are easy to misread:

- `deleteEntry` (`desafio2_ejercicio2/App.js:356-367`) aborts when `deleteAsync`
  throws, for example because the media file is already gone. The index is then not
  rewritten, so it keeps the entry.
- `registerUser` and `loginUser` call `initializeUsers` first. A failed registration
  or login on a store without `users` therefore still leaves the seed accounts
  written. It is "unchanged" only relative to the seeded store.

## Model

| member | source | states |
|---|---|---|
| `Decimal.ToDecimal` | ejercicio_dps/screen/RegisterScreen.js:34 | the timestamp id is a non-empty string of decimal digits with no leading zero |
| `Decimal.ToDecimalInjective` | ejercicio_dps/utils/events.js:27 | two timestamps give the same id exactly when they are equal (proved through a parse round trip) |
| `Accounts.InitializeIdempotent` | ejercicio_dps/utils/auth.js:26-31 | seeding writes exactly the three predefined accounts when `users` is absent and keeps the stored list otherwise, so seeding twice equals seeding once |
| `Accounts.PredefinedUnique` | ejercicio_dps/utils/auth.js:4-23 | the three seed accounts have pairwise distinct emails and usernames |
| `Accounts.Register` | ejercicio_dps/utils/auth.js:44-58 | it fails with the email error exactly when some account has the email, and with the username error exactly when the email is free and the username is taken; otherwise the result is the old list, unchanged and in order, followed by the new account |
| `Accounts.EmailCheckedFirst` | ejercicio_dps/utils/auth.js:45-54 | an account duplicating one stored email and one stored username reports the email error |
| `Accounts.RegisterPreservesUnique` | ejercicio_dps/utils/auth.js:45-58 | if emails and usernames are pairwise distinct before a successful registration, they are still distinct after it |
| `Accounts.RegisterTwiceFails` | ejercicio_dps/utils/auth.js:45-48 | registering the same account a second time fails with the email error |
| `Accounts.FindCredentials` | ejercicio_dps/utils/auth.js:73 | it returns the first account whose email and password both equal the inputs, and none exactly when no account matches both |
| `Accounts.SeedLogin` | ejercicio_dps/utils/auth.js:5-10 | on the seed list, `juanperez@gmail.com` logs in with `juan12345` and with no other password |
| `Accounts.Registry.InitializeUsers` | ejercicio_dps/utils/auth.js:26-35 | `users` becomes the seeded list and an existing list is kept; the session is untouched; uniqueness is kept |
| `Accounts.Registry.RegisterUser` | ejercicio_dps/utils/auth.js:38-64 | it seeds, then yields `Register`'s result. On success it stores the extended list and returns true. On failure it returns the error with only the seeding done. The session is untouched and uniqueness is kept |
| `Accounts.Registry.LoginUser` | ejercicio_dps/utils/auth.js:67-85 | it seeds, then stores the first matching account as the session and returns it; with no match it fails with the credentials error and leaves the session untouched |
| `Accounts.Registry.GetCurrentUser` | ejercicio_dps/utils/auth.js:88-96 | it returns the stored session, or none |
| `Accounts.Registry.LogoutUser` | ejercicio_dps/utils/auth.js:99-105 | the session is absent afterwards whatever it was before, so a second logout changes nothing; the accounts are untouched |
| `Accounts.FreshStoreSession` | ejercicio_dps/utils/auth.js:67-105 | on a fresh store the seeded login becomes the current session; after two logouts there is no session; a wrong password is refused |
| `RegisterForm.Validate` | ejercicio_dps/screen/RegisterScreen.js:15-38 | it reports the missing-field error exactly when a field is empty, the mismatch error exactly when all are filled and the passwords differ, and the length error exactly when they agree but are under 6 characters; otherwise it builds an account holding the entered username, email and password unchanged and the timestamp id |
| `RegisterForm.ValidFormAccepted` | ejercicio_dps/screen/RegisterScreen.js:26-38 | a filled form with a matching password of at least 6 characters is accepted with a non-empty id |
| `RegisterForm.HandleRegister` | ejercicio_dps/screen/RegisterScreen.js:15-48 | a rejected form shows the first failing guard's message and leaves the registry as it was, so the registry is not called; an accepted form gives the registry's outcome |
| `Events.EventsKeyInjective` | ejercicio_dps/utils/events.js:6 | two users share a storage key exactly when they are the same user |
| `Events.Replace` | ejercicio_dps/utils/events.js:40-42 | the update keeps the length and order; every event with the id becomes the update with that id; every other event is unchanged |
| `Events.ReplaceKeepsIds` | ejercicio_dps/utils/events.js:41 | after an update every position keeps its id |
| `Events.ReplaceAbsent` | ejercicio_dps/utils/events.js:40-43 | an update for an id not in the list gives back the same list |
| `Events.ReplaceIdempotent` | ejercicio_dps/utils/events.js:40-42 | applying the same update twice equals applying it once |
| `Seqs.FilterCount` | ejercicio_dps/utils/events.js:55 | `filter` keeps every copy of an element that passes and no copy of one that fails |
| `Events.Remove` | ejercicio_dps/utils/events.js:55 | no survivor has the id; every event with another id survives as many times as it occurs in the list; no event with the id survives |
| `Events.RemoveAbsent` | ejercicio_dps/utils/events.js:55-56 | deleting an id not in the list gives back the same list |
| `Events.RemoveIdempotent` | ejercicio_dps/utils/events.js:55 | deleting twice equals deleting once |
| `Events.RemoveKeepsOrder` | ejercicio_dps/utils/events.js:55 | the survivors are a subsequence of the list, keeping their relative order, and deleting a present id shortens the list |
| `Events.EventStore.SaveEvents` | ejercicio_dps/utils/events.js:4-10 | only the user's key is written; every other user's list is unchanged |
| `Events.EventStore.LoadEvents` | ejercicio_dps/utils/events.js:13-21 | it returns the stored list, and the empty list for a user with no key |
| `Events.EventStore.AddEvent` | ejercicio_dps/utils/events.js:24-35 | the new list is the old one followed by the draft with its id replaced by the timestamp string; the list is stored and returned; other users are unchanged |
| `Events.EventStore.UpdateEvent` | ejercicio_dps/utils/events.js:38-50 | the stored and returned list is `Replace` of the old one; other users are unchanged |
| `Events.EventStore.DeleteEvent` | ejercicio_dps/utils/events.js:53-62 | the stored and returned list is `Remove` of the old one; other users are unchanged |
| `Events.TwoAdds` | ejercicio_dps/utils/events.js:26-29 | two adds for a new user give two events in insertion order, each a draft carrying its own distinct, non-empty timestamp id |
| `Media.NewEntryShape` | desafio2_ejercicio2/App.js:79-92 | a saved entry's id is the timestamp string, and its path is the directory, then the id, then `.jpg` for a photo or `.mp4` for a video; it carries the note and location |
| `Media.NewEntriesDistinct` | desafio2_ejercicio2/App.js:232-245 | saves at different timestamps never share an id or a file path |
| `Media.NewestShownFirst` | desafio2_ejercicio2/App.js:339 | after a save, the reversed index starts with the new entry, followed by the earlier ones newest first |
| `Media.LowerChar` | desafio2_ejercicio2/App.js:352 | the result is the one character that is not an upper-case ASCII letter and equals the input ignoring case: an upper-case letter becomes its own lower-case letter, anything else is kept |
| `Media.LowerEqualIgnoringCase` | desafio2_ejercicio2/App.js:527 | two texts lower-case to the same text exactly when they have the same length and differ only in the case of ASCII letters |
| `Media.NoteMatchIgnoresCase` | desafio2_ejercicio2/App.js:352 | two queries that differ only in the case of letters match the same notes |
| `Media.ContainsEmpty` | desafio2_ejercicio2/App.js:352 | every text contains the empty query |
| `Media.MultimediaView` | desafio2_ejercicio2/App.js:349-354 | every shown entry comes from the list. The photos tab shows exactly the photos and the videos tab exactly the videos. The all tab with a search shows exactly the entries whose lower-cased note contains the lower-cased query. Each kept entry appears as many times as in the list |
| `Media.MultimediaViewFacts` | desafio2_ejercicio2/App.js:349-354 | the type tabs ignore the search text, the all tab with an empty search shows the whole list, and every view keeps the list's order |
| `Media.FileListView` | desafio2_ejercicio2/App.js:526-528 | the file list shows exactly the entries having a note that contains the query ignoring ASCII case; entries without a note are never shown; each kept entry appears as many times as in the list, and the kept entries stay in list order (a subsequence of the list) for every query |
| `Media.FileListEmptyQuery` | desafio2_ejercicio2/App.js:527 | with an empty query every entry having a note is shown, each as many times as in the list and in order, and no entry without a note |
| `Media.FindById` | desafio2_ejercicio2/App.js:358 | it returns the first entry with the id, and none exactly when no entry has it |
| `Media.RemoveId` | desafio2_ejercicio2/App.js:360 | no survivor has the id; every entry with another id survives as many times as it occurs in the list; no entry with the id survives |
| `Media.DeleteFlipsStoredOrder` | desafio2_ejercicio2/App.js:339-361 | filtering the reversed index equals reversing the filtered index, so writing the screen list back stores the survivors in reversed order |
| `Media.DeleteThenReloadShowsOldestFirst` | desafio2_ejercicio2/App.js:360-361 | with an index of three entries, deleting the middle one and reloading shows the survivors oldest first |
| `Media.DeleteKeepingOrderCorrect` | desafio2_ejercicio2/App.js:360-361 | writing the survivors back reversed keeps the stored order, and the next load shows exactly the screen list |
| `Media.Journal.SaveEntry` | desafio2_ejercicio2/App.js:75-106 | without a capture, or when the move fails, nothing changes. Otherwise the capture is moved to the entry's path and the entry is appended to the index, with a missing index read as empty. The video save at lines 228-250 is the same with `Video` |
| `Media.Journal.LoadEntries` | desafio2_ejercicio2/App.js:336-343 | the screen list becomes the index reversed, with a missing index read as empty: position `k` on screen holds the `k`-th entry counted from the end of the index |
| `Media.Journal.DeleteEntry` | desafio2_ejercicio2/App.js:356-367 | an unknown id or a missing file changes nothing. Otherwise the first match's file is removed and the filtered screen list becomes both the screen list and the index. When the screen was in step with the index, the index becomes the filtered index reversed |
| `Media.Journal.DeleteEntryKeepingOrder` | desafio2_ejercicio2/App.js:356-367 | same as the above, but the index becomes the filtered index in its own order, and a screen in step with the index stays in step |

## Findings

| source | as written | input that shows it | evidently intended | confidence | as-written member | corrected member |
|---|---|---|---|---|---|---|
| desafio2_ejercicio2/App.js:360-361 | `deleteEntry` writes the filtered screen list to `entries.json`, and that list is the index reversed at line 339 | index `[a, b, c]` with `c` saved last, so the screen shows `[c, b, a]`; deleting `b` stores `[c, a]` and the next load shows `[a, c]`, oldest first | the index keeps save order (`[a, c]`) so the screen stays newest first (`[c, a]`) | medium; not executed | `Media.DeleteThenReloadShowsOldestFirst` (with `Media.Journal.DeleteEntry`) | `Media.DeleteKeepingOrderCorrect` (with `Media.Journal.DeleteEntryKeepingOrder`) |

## Left out

- Failures of the storage layer (`AsyncStorage` and `expo-file-system` calls that throw) are not modelled. This covers the catch branches that log and return `[]` in the event store and the rethrows in the registry. The failures that are modelled come from state: a capture file missing at the move, and an unknown id or a missing media file at delete.
- JSON text is not modelled: collections are stored as sequences. So a corrupt `entries.json` is not modelled either. The source would fail to parse it after the media file was moved, leaving an orphan file.
- Concurrent read-modify-write calls are not modelled, including the lost update between two overlapping writes. Each operation is atomic.
- The clock and locale are not modelled. `Date.now()` and `new Date().toISOString()` are parameters, so timestamp collisions are the caller's choice.
- `Media.Lower`: lower-cases ASCII letters only, while `toLowerCase` applies full Unicode case mapping.
- `RegisterForm.Validate`: measures the password in Unicode characters, while the source's `length` counts UTF-16 code units. The two differ only for characters outside the Basic Multilingual Plane.
- `Media.Journal.SaveEntry`: the move is modelled as removing the source path and adding the destination path. What the file system does when the destination already exists is not modelled.
- "A media file exists exactly when its entry is indexed" is not stated as an invariant. The source does not maintain it: delete removes only the first match's file while filtering out every entry with the id.
- The file-list screen's own copy of the entries is not a separate field. Its load is the same reversal, `Media.Journal.LoadEntries`.
- Presentation is not modelled: rendering, navigation, alerts, the `loading` flag of the registration screen, camera and video capture, location permission and fixes, `Linking.openURL`, and creating the media directory. The screens' capture and note state is also left out; `SaveEntry` takes the capture and note as parameters.
- The agenda's date handling is not modelled: combining date and time, colour by date, sorting by date, and locale formatting. The title-not-blank guard of the add-event screen is also left out, because it is not part of the event store.
