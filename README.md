# QR account store — a verified model

This project models the logic core of a browser application where people register,
log in and keep a list of generated QR codes (text, image or video payloads). There is
no server: the accounts and the session live in the browser's key/value storage.

The core has two parts.

- **The user store** (`src/context/UserContext.tsx`). It holds the registered accounts
  (`users`), the logged-in account (`currentUser`, optional) and the working list of codes
  (`qrData`). It offers sign-up, log-in, log-out, and add/delete/update of a code. Each
  code change is written back into the logged-in account and into that account's entry
  in `users`. Two effects mirror `users` and a non-null `currentUser` into storage, and
  reload the working list from `currentUser`. This part is the class `UserContext.Store`.
  Each method is one atomic step that already includes what the effects do afterwards.
  The list work inside the operations (`some`, `find`, `filter`, `map`) is pure functions
  in `Accounts` and `QrOps`.
- **The main screen** (`src/components/main.tsx`). `QrView` holds the list it shows:
  the working list filtered by kind ("all" keeps everything), then sorted by date with
  the `sortByDate` comparator under a stable sort. `MainScreen.MainView` holds the screen
  state that creating a code changes. It builds a record from the chosen kind and content
  and hands it to the store, uploading a media file first when needed.

Files: `types.dfy` (records), `lists.dfy` (filter), `accounts.dfy`, `qr_ops.dfy`,
`user_context.dfy`, `qr_view.dfy`, `main_screen.dfy`, `walkthrough.dfy` (a client that
registers, logs in, adds, deletes and logs out using only the contracts).

Modelling choices:

- Dates are day numbers (`int`). The source stores fixed-width `YYYY-MM-DD` strings and
  compares their millisecond timestamps. Those compare exactly like day numbers, and the
  comparator's sign is the same.
- A code's `type` field is called `kind`, because `type` is a reserved word in Dafny.
- Storage is a `map<string, Stored>` of already-decoded values. The key "users" holds the
  account list and "currentUser" holds the session account. Any other key (such as the
  theme) is left untouched.
- The record id, the creation day, whether a media file was chosen, and the upload
  outcome (`Option<string>`: the returned URL, or None on failure) are all parameters.
- The "Username already exists." alert is the `taken` result of `SignupUser`.

Behaviour of the code worth knowing:

- Without a session, `addQr`, `deleteQr` and `updateQr` still change the working list and
  leave the accounts, the session and storage alone (`AddQr`, `DeleteQr`, `UpdateQr`).
- Update replaces, and delete removes, every record with the id (`ReplaceId`, `RemoveId`).
- Log-out keeps the working list: the previous account's codes stay in `qrData` until
  the next log-in replaces them.

## Model

| member | source | states |
|---|---|---|
| `Lists.Filter` | src/components/main.tsx:151-152 | the filtered list is never longer than the input, and equals it when every element passes |
| `Lists.FilterMembers` | src/context/UserContext.tsx:77 | an element is in the filtered list exactly when it is in the input and passes the test |
| `Lists.FilterConcat` | src/context/UserContext.tsx:77 | filtering distributes over concatenation, so survivors keep their relative order |
| `Accounts.NameTaken` | src/context/UserContext.tsx:100 | true exactly when some account has that user name (case-sensitive) |
| `Accounts.Register` | src/context/UserContext.tsx:99-106 | sign-up on the list: a taken name leaves it unchanged, otherwise the account is appended; earlier entries are untouched, the name is registered afterwards, and unique names stay unique |
| `Accounts.FindIndex` | src/context/UserContext.tsx:108-113 | finds the first account matching both user name and password, and None exactly when no account matches |
| `Accounts.LoginFindsOwnAccount` | src/context/UserContext.tsx:108-120 | with unique names, every account's own credentials find exactly that account |
| `Accounts.WrongPasswordFails` | src/context/UserContext.tsx:108-120 | with unique names, a registered name with any other password finds nothing |
| `Accounts.ReplaceByName` | src/context/UserContext.tsx:92-94 | same length; each entry with the name is replaced by the new account, all others are unchanged |
| `Accounts.ReplaceKeepsNames` | src/context/UserContext.tsx:88-97 | a replacement that keeps the name keeps every position's name, so unique names stay unique |
| `QrOps.RemoveId` | src/context/UserContext.tsx:76-80 | every record with the id is removed and every other record kept; an absent id leaves the list unchanged |
| `QrOps.RemoveIdKeepsOrder` | src/context/UserContext.tsx:77 | deletion distributes over concatenation: the records kept stay in their order |
| `QrOps.AddThenDelete` | src/context/UserContext.tsx:70-80 | appending a record with a fresh id and then deleting that id restores the original list |
| `QrOps.ReplaceId` | src/context/UserContext.tsx:82-86 | same length and positions; exactly the entries with the id become the new record; an absent id changes nothing |
| `UserContext.Persist` | src/context/UserContext.tsx:57-68 | reading storage back after the effects yields the written accounts and session; no other key changes |
| `UserContext.WithQrs` | src/context/UserContext.tsx:90 | the updated account keeps name and password and carries the new list |
| `UserContext.WriteBack` | src/context/UserContext.tsx:88-97 | with a session, the entry with the session's name carries the new list and all other entries are unchanged; without one, nothing changes; names stay unique |
| `UserContext.WriteBackSession` | src/context/UserContext.tsx:88-91 | the session account keeps its name and password and carries the new list; no session stays no session |
| `UserContext.Store.constructor` | src/context/UserContext.tsx:43-68 | initial state is loaded from storage (absent means empty or no session), the working list comes from the session account, and both effects have mirrored it |
| `UserContext.Store.SignupUser` | src/context/UserContext.tsx:99-106 | reports a taken name and changes nothing, or appends the account and stores the new list; session and working list unchanged |
| `UserContext.Store.LoginUser` | src/context/UserContext.tsx:108-120 | true exactly when some account matches both credentials; then the session is the first such account, the working list is its list (or empty), and it is stored; on false nothing changes |
| `UserContext.Store.LogoutUser` | src/context/UserContext.tsx:122-125 | the session ends and its stored copy is removed; accounts and working list unchanged |
| `UserContext.Store.UpdateUserQrData` | src/context/UserContext.tsx:88-97 | the write-back of a new working list into the session account, its account entry and storage; nothing without a session |
| `UserContext.Store.AddQr` | src/context/UserContext.tsx:70-74 | the working list grows by exactly the new record at the end, then is written back |
| `UserContext.Store.DeleteQr` | src/context/UserContext.tsx:76-80 | the working list becomes `RemoveId` of the old one, then is written back |
| `UserContext.Store.UpdateQr` | src/context/UserContext.tsx:82-86 | the working list becomes `ReplaceId` of the old one, then is written back |
| `QrView.CompareDates` | src/components/main.tsx:141-145 | zero exactly for the same day; ascending puts earlier days first, descending later days first |
| `QrView.Insert` | src/components/main.tsx:153 | inserting adds exactly the one record (multiset) |
| `QrView.InsertKeepsDays` | src/components/main.tsx:141-145 | an inserted record goes ahead of every record of its own day, and other days' records keep their order |
| `QrView.SortQrs` | src/components/main.tsx:153 | the sorted list is a permutation of the input and is in comparator order |
| `QrView.SortKeepsDays` | src/components/main.tsx:153 | stability: records of the same day keep their relative order |
| `QrView.SortedByDaysUnique` | src/components/main.tsx:153 | two sorted lists that agree day by day are equal |
| `QrView.StableSortIsSortQrs` | src/components/main.tsx:153 | any sorted, stable arrangement of the input equals `SortQrs`, whichever stable algorithm produced it |
| `QrView.FilteredQrData` | src/components/main.tsx:151-153 | every shown record has the selected kind unless "all"; it is a permutation of the filtered list; with "all" it has every record; dates are non-decreasing for asc and non-increasing for desc |
| `QrView.FilteredQrDataStable` | src/components/main.tsx:151-153 | records of the same day appear in their working-list order |
| `MainScreen.GeneratedContent` | src/components/main.tsx:68-80 | kind "text" or non-empty content stores that content; otherwise a chosen file whose upload returns a non-empty URL stores exactly that URL, and nothing else stores anything (never empty content; a failed upload stores nothing) |
| `MainScreen.MainView.constructor` | src/components/main.tsx:27-33 | the screen starts closed, filtering "all", kind "text", empty content, not loading, ascending |
| `MainScreen.MainView.GenerateAndStoreQr` | src/components/main.tsx:82-91 | exactly one record (given id, selected kind, given day, the content) is appended through the store with the full write-back to accounts, session and storage (no other storage key changes), and the dialog closes |
| `MainScreen.MainView.HandleGenerateButtonClick` | src/components/main.tsx:68-80 | appends a record exactly when `GeneratedContent` gives one, with the full write-back to accounts, session and storage, else leaves the store as it was; sets content and loading as the upload step does; closes the dialog only on success |

## Left out

- Rendering, JSX, the view-mode and modal toggles, `handleCloseModal`, `handleViewQR` and
  the `handleDelete` forwarder (src/components/main.tsx:155-388). These are presentation only.
- Routing and theme switching (src/App.tsx, src/components/nav.tsx), and the form field
  handlers in src/components/login.tsx and src/components/signup.tsx. These are glue that
  forwards to the store. The sign-up form's extra `name` field, which the source stores
  along with the account, is not carried.
- The media upload itself (src/components/main.tsx:50-66: HTTP request, form data,
  environment variables). Its outcome is a parameter.
- The SVG to PNG download (src/components/main.tsx:101-126), which uses browser APIs.
- The clock (`Date.now()`, `new Date()`) and date parsing. The id and the day are
  parameters. An unparseable date (a `NaN` comparison) is not modelled.
- `JSON.parse`/`JSON.stringify` and the storage API. Storage holds decoded values, and a
  stored value of the wrong shape reads as absent, where the source would fail or
  misbehave on it.
- `alert`, `console.error`, navigation after log-in, log-out and sign-up.
- React's asynchronous state batching, stale closures during a pending upload, and
  effect firing by object identity. Each operation is one atomic step on values. Under
  the store invariant, re-running an effect for an equal value changes nothing.
- Several tabs sharing one storage, which the source does not coordinate.
- The `return 0` branch of `sortByDate`. The screen's sort order is typed as only
  "asc" or "desc", so that branch is never reached.
