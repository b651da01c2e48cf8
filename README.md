# Notes app: a verified model of its logic

The notes app lets a user register or sign in, then create, edit and delete
short text notes that are kept in the browser's local storage under that
user's name. This project models the logic under the React markup, in Dafny:

- **Notes store** (`UseNotes`, from `useNotes.ts`). A class `NotesStore`
  holds the in-memory list and the storage entries `"notes_" + username`.
  Every write sorts the list newest first by `updatedAt` and stores it. The
  sort is JavaScript's stable sort, modelled as a stable insertion sort
  (`SortNewestFirst`). It is proved sorted, a permutation of its input,
  stable, and the identity on sorted input. Update and delete are the pure
  `ApplyEdit` (the `map`) and `WithoutId` (the `filter`). Load, save,
  create, update and delete are methods whose postconditions give the whole
  new state. The in-memory list being newest first is the class invariant.
- **Local account registry** (`AuthContext`, from `AuthContext.tsx`). A class
  `AuthProvider` holds three things: the account table stored under
  "notesUsers", the remembered user stored under "notesCurrentUser", and the
  signed-in `username` state. It has `register`, `login`, `logout` and the
  session-restore effect. `btoa` is the class constant `encodePassword`. The
  model assumes only what `IsPasswordEncoder` states: the encoding is
  injective and maps `""` to `""`.
- **Note dialog** (`NoteDialog`, from `NoteDialog.tsx`). The fields start
  from the edited note. `HandleSave` is the save handler's chain of checks.
- **Login page** (`LoginPage`, from `Login.tsx`). `HandleLogin` and
  `HandleRegister` are the two forms' chains of checks, each followed by one
  call to the auth layer.
- **JavaScript strings** (`JsText`). `String.prototype.trim` removes exactly
  ECMAScript's WhiteSpace and LineTerminator characters. `length` counts
  UTF-16 code units, so a character outside the Basic Multilingual Plane
  counts as two.

Two points where the code does not do what its messages suggest:

- "Registering an existing user fails" holds only for names whose stored
  encoding is non-empty. The existence test is JavaScript truthiness. A name
  stored with the empty encoding (`btoa("")`) counts as absent, so it can be
  registered again, and nobody can log in as it. `RegisterThenLogin` states
  this.
- `Login.tsx` reads `result.success` and `result.error` from `login` and
  `register`. The local `AuthContext.tsx` provider returns plain booleans, and
  `true.success` is `undefined`. Wired to this provider, the page would report
  every login and registration as failed even when the provider had signed the
  user in. The form handlers are modelled against the result shape the page
  expects (`AuthResult`). The provider that returns that shape is not part of
  this model.

## Model

| member | source | states |
|---|---|---|
| `JsText.Trim` | notes-app/src/components/NoteDialog.tsx:37 | `trim()` drops the leading whitespace run and a whitespace-only tail. The result is empty exactly when the text is blank, and otherwise starts and ends with non-whitespace. |
| `JsText.TrimNoLonger` | notes-app/src/components/NoteDialog.tsx:64 | The trimmed text is never longer than the input, in characters or in UTF-16 code units. |
| `JsText.TrimIdempotent` | notes-app/src/components/NoteDialog.tsx:37 | Trimming text that was already trimmed changes nothing. |
| `JsText.JsLength` | notes-app/src/components/NoteDialog.tsx:46 | `length` counts UTF-16 code units. It lies between the character count and twice it, and it is zero only for the empty string. |
| `AuthContext.IsTruthy` | notes-app/src/contexts/AuthContext.tsx:26 | `null` and the empty string are the only falsy values of a stored string; the same test guards the user at notes-app/src/hooks/useNotes.ts:12 and :29. |
| `AuthContext.VerifyPassword` | notes-app/src/contexts/AuthContext.tsx:17-19 | A password verifies exactly when its encoding is the stored text. Against the empty stored encoding only the empty password verifies. |
| `AuthContext.VerifyOwnEncoding` | notes-app/src/contexts/AuthContext.tsx:13-19 | `verifyPassword(p, encodePassword(p))` always holds. |
| `AuthContext.VerifyOnlyOwnEncoding` | notes-app/src/contexts/AuthContext.tsx:13-19 | With an injective encoding, `verifyPassword(q, encodePassword(p))` implies `q == p`. |
| `AuthContext.UsersTable` | notes-app/src/contexts/AuthContext.tsx:33 | A missing "notesUsers" entry reads as the empty table. A present one reads as its contents. |
| `AuthContext.HasAccount` | notes-app/src/contexts/AuthContext.tsx:35 | The corrected existence test used by `Register` and `Login`: an account exists only for a stored name, and for a stored name exactly when its encoding is truthy. |
| `AuthContext.HasAccountAsWritten` | notes-app/src/contexts/AuthContext.tsx:35 | The existence test as written: for a stored name it agrees with `HasAccount`; for any other name it holds exactly when the name is an `Object.prototype` member. |
| `AuthContext.InheritedNameLooksRegistered` | notes-app/src/contexts/AuthContext.tsx:35 | As written, "constructor" with no stored account passes the existence test, but it has no own entry. |
| `AuthContext.AccountLookupsAgree` | notes-app/src/contexts/AuthContext.tsx:35 | The as-written lookup and the own-entry lookup agree on every name that is stored or is not an `Object.prototype` member. |
| `AuthContext.AuthProvider.constructor` | notes-app/src/contexts/AuthContext.tsx:22 | The provider starts with no signed-in user over the given storage. |
| `AuthContext.AuthProvider.RestoreSession` | notes-app/src/contexts/AuthContext.tsx:24-29 | A non-empty remembered user becomes the signed-in user. Otherwise the state is kept. |
| `AuthContext.AuthProvider.Register` | notes-app/src/contexts/AuthContext.tsx:31-44 | Succeeds if and only if the name has no account. On failure nothing changes. On success the table gains `name -> encode(password)` and every other entry is kept. The user is then remembered and signed in. |
| `AuthContext.AuthProvider.Login` | notes-app/src/contexts/AuthContext.tsx:46-61 | Succeeds if and only if the name has an account and the password verifies against it. On failure nothing changes. On success the user is remembered and signed in. The table is never written. |
| `AuthContext.AuthProvider.Logout` | notes-app/src/contexts/AuthContext.tsx:63-66 | Forgets the remembered user and signs out. The account table is untouched. |
| `AuthContext.RegisterThenLogin` | notes-app/src/contexts/AuthContext.tsx:31-61 | After a successful `register(u, p)`, `login(u, p)` succeeds if and only if `p` is non-empty, and then `u` is signed in. |
| `UseNotes.StorageKey` | notes-app/src/hooks/useNotes.ts:9 | The key is "notes_" followed by the whole username, six characters longer than it. |
| `UseNotes.StorageKeyInjective` | notes-app/src/hooks/useNotes.ts:9 | Distinct usernames get distinct storage keys. |
| `UseNotes.StorageKeyAvoidsAuthKeys` | notes-app/src/hooks/useNotes.ts:9 | No notes key equals "notesUsers" or "notesCurrentUser". |
| `UseNotes.SortNewestFirst` | notes-app/src/hooks/useNotes.ts:30-32 | The sorted list is newest first by `updatedAt` and is a permutation of its input: no note is lost or duplicated. |
| `UseNotes.SortIsStable` | notes-app/src/hooks/useNotes.ts:30-32 | Notes with equal `updatedAt` keep their relative order. |
| `UseNotes.SortOfSorted` | notes-app/src/hooks/useNotes.ts:30-32 | A list that is already newest first is left as it is. |
| `UseNotes.ApplyEdit` | notes-app/src/hooks/useNotes.ts:51-55 | The length is kept. A note with a different id is unchanged, in place. A note with the id keeps its id and `createdAt` and gets the new title, content and `updatedAt`. |
| `UseNotes.EditOfAbsentId` | notes-app/src/hooks/useNotes.ts:51-55 | Editing an id that no note carries leaves the list unchanged. |
| `UseNotes.WithoutId` | notes-app/src/hooks/useNotes.ts:60 | No note with the id is left. Every other note keeps its number of occurrences. A newest-first list stays newest first. |
| `UseNotes.WithoutIdAppend` | notes-app/src/hooks/useNotes.ts:60 | The filter works note by note: filtering `a + b` gives the filtered `a` followed by the filtered `b`, so the kept notes stay in their order. |
| `UseNotes.NotesStore.constructor` | notes-app/src/hooks/useNotes.ts:6 | The hook starts with an empty list and no user. |
| `UseNotes.NotesStore.Load` | notes-app/src/hooks/useNotes.ts:11-26 | With a user signed in, a stored list becomes the list, sorted newest first. An entry that fails to parse empties the list. A missing or empty entry keeps the list, and so does having no user. Storage is untouched. |
| `UseNotes.NotesStore.SaveNotes` | notes-app/src/hooks/useNotes.ts:28-36 | With a user signed in, the list and that user's entry both become the sorted input, and other entries are untouched. Without a user nothing changes. |
| `UseNotes.NotesStore.CreateNote` | notes-app/src/hooks/useNotes.ts:38-48 | Returns the note built from the id, the inputs and the clock readings. When saved, the list is one longer and holds exactly the old notes plus that one. |
| `UseNotes.NotesStore.UpdateNote` | notes-app/src/hooks/useNotes.ts:50-57 | When saved, the list is the edited list sorted newest first, with the same length. |
| `UseNotes.NotesStore.DeleteNote` | notes-app/src/hooks/useNotes.ts:59-61 | When saved, the list is exactly the old list without the id's notes, in the same order, and nothing else is lost. |
| `UseNotes.ReloadAfterSave` | notes-app/src/hooks/useNotes.ts:11-34 | Loading the entry that `saveNotes` just wrote gives back the saved list. |
| `NoteDialog.InitialFields` | notes-app/src/components/NoteDialog.tsx:26-34 | The fields take the edited note's title and content, or are empty for a new note. |
| `NoteDialog.HandleSave` | notes-app/src/components/NoteDialog.tsx:36-66 | Blank content is exactly the "Content required" case. A save happens exactly when the content is not blank, the title is at most 200 code units and the content at most 10000. What is saved is the trimmed title and content: the content is non-empty, at most 10000 units long, and the title at most 200. |
| `NoteDialog.SaveChecksInOrder` | notes-app/src/components/NoteDialog.tsx:37-62 | Blank content is reported before anything else, then a long title. "Content too long" is reported only when the title passed. |
| `NoteDialog.ResaveUnchanged` | notes-app/src/components/NoteDialog.tsx:26-66 | Reopening the dialog on a saved note and saving it unchanged saves the same title and content. |
| `NoteDialog.SaveAcceptsLimits` | notes-app/src/components/NoteDialog.tsx:46-62 | A title of exactly 200 and content of exactly 10000 code units are accepted. |
| `NoteDialog.TitleMeasuredBeforeTrim` | notes-app/src/components/NoteDialog.tsx:46-64 | 200 letters and a space are refused as too long, although the trimmed title would be 200 long. |
| `LoginPage.FailureDescription` | notes-app/src/pages/Login.tsx:40 | The failure toast shows the auth layer's message when it is non-empty, and the fixed text otherwise. |
| `LoginPage.CallAuth` | notes-app/src/pages/Login.tsx:34-45 | The credentials are passed on as given. The page navigates to `/notes` exactly when the auth layer succeeds, and otherwise shows the failure toast with `FailureDescription`; the same reaction follows `register` at notes-app/src/pages/Login.tsx:88-103. |
| `LoginPage.HandleLogin` | notes-app/src/pages/Login.tsx:21-46 | Rejected without calling `login` exactly when the trimmed username or the password is empty. Otherwise `login` is called with the trimmed username and the untrimmed password, and the page navigates to `/notes` exactly when it succeeds. A refusal shows the auth layer's message or "Invalid username or password.". |
| `LoginPage.HandleRegister` | notes-app/src/pages/Login.tsx:48-104 | `register` is called only with a non-empty trimmed username of at most 50 code units and a confirmed password of at least 6. The page navigates to `/notes` exactly when `register` succeeds. A refusal shows the auth layer's message or "An error occurred during registration.". |
| `LoginPage.RegisterChecksInOrder` | notes-app/src/pages/Login.tsx:52-86 | Each registration error is reported exactly when every earlier check passed and its own check fails, in this order: required fields, username length, password length, confirmation. |
| `LoginPage.RegisterAcceptsLimits` | notes-app/src/pages/Login.tsx:61-77 | A 50-unit username and a 6-unit confirmed password pass every check. |
| `LoginPage.LoginKeepsPasswordUntrimmed` | notes-app/src/pages/Login.tsx:23-25 | A password of a single space passes the login checks and is sent as typed. |

## Findings

| source | as written | input that shows it | evidently intended | confidence | as-written member | corrected member |
|---|---|---|---|---|---|---|
| notes-app/src/contexts/AuthContext.tsx:35 | `users[username]` is looked up on a plain object parsed from JSON, so names of `Object.prototype` members ("constructor", "toString", "valueOf", ...) are truthy without any stored account, and `register` reports "already exists". | `register("constructor", "secret1")` on an empty table returns false. | Only the table's own entries decide whether an account exists. | high, not executed | `AuthContext.InheritedNameLooksRegistered` | `AuthContext.AuthProvider.Register` |

`AuthContext.HasAccountAsWritten` models the lookup as the code does it.
`AuthContext.AuthProvider.Register` and `Login` use the own-entry lookup
`HasAccount`, so `Register` is proved to succeed for every name without an
account. For `login` the difference is harmless: no inherited member is a
string, so it never equals an encoded password, and `login` fails for such a
name either way.

## Left out

- React machinery is left out: effects, re-render timing, and the stale `notes` closure in `createNote`. Each operation is one sequential call on the current state. `NotesStore.Load(user)` stands for the effect run when the signed-in user becomes `user`.
- Local storage is split into the fields of the two classes. `StorageKeyAvoidsAuthKeys` shows that the two key spaces do not overlap.
- `JSON.parse` and `JSON.stringify` of notes are abstracted by `StoredEntry`. `Serialized` is an array that parses back to the same notes. `Unparsable` is text on which parsing or `.sort` throws. `Blank` is the empty string.
- `AuthContext.UsersTable`: an unparsable "notesUsers" entry makes `JSON.parse` throw out of `register` and `login`. This is not modelled; the entry is either a parsed table or missing.
- `btoa` is not modelled beyond injectivity and `btoa("") == ""`: neither base64 itself nor its exception on characters above U+00FF.
- ISO timestamps are replaced by their millisecond values. An invalid date string, whose `NaN` comparison breaks the sort's ordering, is not modelled.
- `crypto.randomUUID` and `new Date()` become parameters of `CreateNote` and `UpdateNote`. Id uniqueness is not modelled, because the code never checks it.
- `UseNotes.ApplyEdit`: the source calls `new Date()` once per matching note, so with duplicate ids the matches can get different `updatedAt` values. The model stamps all of them with the one reading `now`.
- `JsText.JsLength` and `JsText.Trim` work on strings of Unicode scalar values. A JavaScript string can also hold lone surrogates, which a Dafny `string` cannot; such input is not covered.
- Toasts and `navigate` are outcome values (`SaveOutcome`, `FormOutcome`), not effects. The `async`/`await` of the form handlers is not modelled.
- The inputs' `maxLength` attributes in the dialog are browser-side limits and are not modelled. `HandleSave` checks the lengths itself.
- The hosted-backend authentication provider is not part of this model. Nor are `NoteCard.tsx` (rendering only) and `Notes.tsx` (page wiring of the hook to the dialog).
