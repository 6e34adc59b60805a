# Secret Santa: guessing, joining and form handling, modelled in Dafny

The application runs Secret Santa gift exchanges on top of a hosted relational
datastore. Users form groups and join them with an invite code. A draw assigns
each member a giftee, and a guessing game lets a participant scan a suspect's QR
code to test whether the suspect is their own Santa. Each wrong guess costs one
of the participant's lives.

This project models the sequential logic under that UI. The datastore is an
immutable `Store` value: profiles, groups and wishlist items are maps keyed by
their ids, participants are a sequence of rows, and matches are a set of directed
santa → giftee edges. Every server action and form handler is a pure function
from (store, inputs, environment answers) to (reply, new store).

- `Schema` (schema.dfy): the tables of `types/database.types.ts`, their insert
  defaults, the `.eq(...).single()` reads and `.update(...)` writes on participant
  rows, the store invariants (one row per (group, user), lives never negative),
  and the `attempt_guess` remote procedure as a lookup of the edge
  suspect → caller.
- `GuessSanta` (guess_santa.dfy): the `attemptGuess` action and the lives counter.
- `ScanPage` (scan_page.dfy): the drawn-groups list, the automatic selection of a
  single group, and `handleScan`.
- `QrPayload` (qr_payload.dfy): the QR text `JSON.stringify({ userId, qrToken })`
  and a parser for JSON objects whose members are all strings. Strings follow
  section 7 of RFC 8259 and objects follow section 4.
- `JoinGroup` (join_group.dfy): the `joinGroup` action.
- `CreateGroup`, `SetupProfile`, `Register`, `WishlistGrid`: the form handlers'
  validation, normalisation and writes.
- `JsText` (js_text.dfy): JavaScript's `trim` and `.length`. `.length` counts
  UTF-16 code units.
- `Wrappers`, `Feedback`: `Option`, toasts, and the `message || fallback` idiom.

The environment is always an input to these functions. It covers the signed-in
user (`None` when nobody is signed in), the errors the datastore reports, and the
ids and tokens the datastore or `nanoid` generates.

Three modelling choices need stating:

- The `attempt_guess` procedure is modelled as a lookup of the edge
  suspect → caller (santa = suspect, giftee = caller). This follows the comment
  at app/actions/guess-santa.ts:24, which says the call checks whether the
  suspect is the caller's Santa.
- The generated `groups` row type has no `invite_code` column. Create-group
  writes one (app/dashboard/create-group/page.tsx:45) and join-group looks groups
  up by it (app/actions/join-group.ts:21-27), so the model's `Group` has it.
- The draw, `performDraw` (app/dashboard/group/[id]/actions.ts:16-85), is not
  modelled. Match rows are an input.

## Model

| member | source | states |
|---|---|---|
| Schema.StatusTextRoundTrip | types/database.types.ts:38 | The status column holds exactly two values. Each status's text reads back as that status, and no two statuses share a text. |
| Schema.ParseStatus | types/database.types.ts:38-52 | Only the texts 'open' and 'drawn' are statuses. Every other text is refused. |
| Schema.StoredProfile | types/database.types.ts:12-24 | A stored profile always has a qr_token. The token is the insert's own if given, otherwise the generated one. |
| Schema.StoredGroup | types/database.types.ts:40-46 | Status may be omitted on insert. A group inserted without a status is 'open', which is an assumed default (see Left out). |
| Schema.StoredParticipant | types/database.types.ts:55-67 | A participant row ties a group, a user and a lives count. Lives may be omitted on insert, and omitted lives take the default. |
| Schema.RowsFor | app/actions/guess-santa.ts:35-39 | A query filtered by group_id and user_id returns only rows of that pair, and every such row. It returns no more rows than the table holds. |
| Schema.RowsForCounts | app/actions/guess-santa.ts:35-40 | The query returns each row of the pair exactly as many times as the table holds it, and no other row. So `.single()` sees the true number of matching rows. |
| Schema.SingleRow | app/actions/guess-santa.ts:35-40 | `.single()` yields a row exactly when one row matches. That row belongs to the pair. |
| Schema.UpdateLives | app/actions/guess-santa.ts:43-47 | The update keeps the table's length. |
| Schema.UpdateLivesPointwise | app/actions/guess-santa.ts:43-47 | Position by position, the update sets the lives of exactly the rows of (group, user) and leaves every other row, and the order, unchanged. |
| Schema.UpdateKeepsOtherRows | app/actions/guess-santa.ts:43-47 | A lives update filtered by (group, user) leaves every query for any other pair unchanged. |
| Schema.UpdateSetsOwnRows | app/actions/guess-santa.ts:43-47 | The update keeps the number of rows for its pair and gives each of them the new lives value. |
| Schema.UpdatePreservesInvariants | app/actions/guess-santa.ts:42-47 | Writing a non-negative lives value keeps one row per (group, user) and keeps every lives count non-negative. |
| Schema.AttemptGuessRpc | types/database.types.ts:123-129 | The procedure takes a group and a suspect and returns a boolean. It is true exactly when the suspect is the caller's santa in that group. Its contract is stated by RpcAcceptsAtMostOneSuspect and GuessSanta.ReplyRevealsOnlyVerdict. |
| Schema.RpcAcceptsAtMostOneSuspect | types/database.types.ts:123-129 | The procedure returns only a boolean. When each giftee has one santa, at most one suspect gets true. |
| GuessSanta.LoseLife | app/actions/guess-santa.ts:34-48 | A miss lowers the caller's lives in the group by exactly 1 when they are above 0. It writes nothing when lives are 0, the row is missing or ambiguous, or the update fails. Every other row, all matches and all other tables stay unchanged. |
| GuessSanta.AttemptGuess | app/actions/guess-santa.ts:6-65 | Without a user, or with a missing suspect profile or a token mismatch, the call fails and writes nothing. The santa check is not consulted in those cases. A santa-check error fails with its message. Success happens exactly when none of these occur, and the verdict is the santa check's whatever the caller's lives. A correct guess writes nothing. A wrong guess applies LoseLife. Every failure reports isCorrect false. |
| GuessSanta.ReplyRevealsOnlyVerdict | app/actions/guess-santa.ts:24-56 | Two stores that differ only in their match rows, and agree on whether the suspect is the caller's santa, give the same reply. No other santa information reaches the caller. |
| GuessSanta.GuessNeverRaisesLives | app/actions/guess-santa.ts:42-48 | After any guess, every participant with a single row and lives ≥ 0 keeps a single row, whose lives never increase and never drop below 0. |
| GuessSanta.GuessPreservesWellFormed | app/actions/guess-santa.ts:34-48 | A guess keeps the store invariants. |
| GuessSanta.RunCostsOneLifePerMiss | app/actions/guess-santa.ts:34-48 | Over any run of guesses, a caller starting with L lives ends with max(0, L − misses). Each guess may have its remote call fail or its lives update fail. A miss is a guess with a valid token, for a suspect who is not the caller's santa, whose remote call and update both succeed. Every other guess leaves the lives as they are. |
| QrPayload.Encode | components/santa/QRDisplay.tsx:12 | The payload is one object text, opening with `{` and closing with `}`. RoundTrip states what it holds. |
| QrPayload.EncodeIsPrintable | components/santa/QRDisplay.tsx:12 | The payload holds no raw character below U+0020, because every such character inside the two strings is escaped. Characters from U+007F up pass through as they are. |
| QrPayload.Parse | app/game/scan/page.tsx:64 | A text is read as an object only when its first non-blank character is `{`. RoundTrip shows that every payload is read back exactly. |
| QrPayload.EscapeParses | components/santa/QRDisplay.tsx:12 | Every character, as escaped for a JSON string (quote, backslash, the short escapes, `\u00XX` for other control characters), reads back as itself. |
| QrPayload.RoundTrip | components/santa/QRDisplay.tsx:12 | Parsing a payload gives exactly the object {userId: u, qrToken: t} it was built from. |
| QrPayload.RoundTripMembers | app/game/scan/page.tsx:64-73 | The payload is an object with exactly the two string members userId and qrToken. The scan handler reads back the same userId and qrToken. |
| QrPayload.EncodeInjective | components/santa/QRDisplay.tsx:12 | Distinct (userId, qrToken) pairs give distinct payloads. |
| QrPayload.Member | app/game/scan/page.tsx:66 | Reading a member gives its value when the object has that name, and undefined otherwise. |
| JsText.Trim | app/dashboard/create-group/page.tsx:26 | The result is no longer than the input, and it neither starts nor ends with whitespace. TrimCharacterized says where it sits in the input. |
| JsText.TrimCharacterized | app/dashboard/create-group/page.tsx:26 | `trim` returns a contiguous piece of the input with only whitespace around it, and the piece neither starts nor ends with whitespace. |
| JsText.TrimIdempotent | app/dashboard/create-group/page.tsx:43 | Trimming a trimmed string changes nothing. |
| JsText.TrimEmptyIffAllWhitespace | components/santa/WishlistGrid.tsx:35 | The trimmed text is empty exactly when the input is all whitespace. |
| JsText.Utf16Length | app/setup-profile/page.tsx:21 | JavaScript's length lies between the number of characters and twice that number. |
| Feedback.OrElse | app/actions/join-group.ts:64 | `message \|\| fallback`: the message when it is non-empty, the fallback when it is empty. The result is non-empty when the fallback is. |
| ScanPage.JoinedGroups | app/game/scan/page.tsx:34-46 | Each embedded group is a real group of which the caller has a participant row. Each of the caller's rows with an existing group shows up. |
| ScanPage.DrawnOnly | app/game/scan/page.tsx:46 | The filter keeps exactly the present groups with status 'drawn'. |
| ScanPage.FetchGroups | app/game/scan/page.tsx:30-51 | With a user, exactly the drawn groups the caller belongs to are offered. A single one is selected automatically, and otherwise the selection is unchanged. Without a user nothing changes. |
| ScanPage.JoinedGroupsCounts | app/game/scan/page.tsx:34-44 | The embedded list holds each existing group once per row the caller has in it, and no other group. |
| ScanPage.DrawnOnlyCounts | app/game/scan/page.tsx:46 | The filter keeps each drawn group exactly as often as the list holds it, and drops every other entry. |
| ScanPage.FetchGroupsCounts | app/game/scan/page.tsx:30-51 | Each of the caller's drawn groups is offered once per row the caller has in it. With one row per (group, user), no group is offered twice. |
| ScanPage.SingleDrawnGroupIsSelected | app/game/scan/page.tsx:46-51 | With one row per (group, user), a caller who belongs to exactly one drawn group is offered that group alone, and it is selected. |
| ScanPage.PreCheck | app/game/scan/page.tsx:57-73 | With no group or no suspect, the handler says "Selecciona un grupo primero". Text that does not parse gives "QR inválido". A userId that differs from the suspect is refused. Otherwise the guess goes out with the URL's suspect and the payload's qrToken. |
| ScanPage.ShowReply | app/game/scan/page.tsx:75-86 | A failed reply leaves the result unset and shows the error, or "Error al verificar" when there is none. A success sets 'win' when isCorrect holds and 'lose' otherwise. |
| ScanPage.HandleScan | app/game/scan/page.tsx:57-90 | A refused scan changes nothing and makes no server call. Otherwise the action receives the selected group, the URL's suspect and the payload's token. Scanning stops. A failed reply keeps the previous result. |
| ScanPage.ScanOfUsersQr | app/game/scan/page.tsx:64-73 | A QR built for user u passes the suspect check exactly when u is the suspect. It then sends u's token from the code. |
| ScanPage.GenuineQrGetsVerdict | app/game/scan/page.tsx:64-86 | Scanning the suspect's genuine code while signed in always reaches the server's token check. When the remote call succeeds the page shows a verdict, 'win' exactly when the suspect is the caller's santa. When the call reports an error, the previous verdict stays, that error (or "Error al verificar") is shown, and nothing is written. |
| JoinGroup.FindByInviteCode | app/actions/join-group.ts:21-31 | The invite-code lookup finds a group exactly when one group has the code. |
| JoinGroup.JoinGroup | app/actions/join-group.ts:10-66 | An unauthenticated caller gets a redirect and nothing is written. The code is trimmed before lookup, and an unknown code is refused. A drawn group refuses everyone, members included, because its check comes first. An existing member gets success with a message. Otherwise exactly one row (group, user) with default lives is appended, and the reply carries the group id. An insert error fails with its message, or the fallback. |
| JoinGroup.OpenGroupWithCodeIsJoinable | app/actions/join-group.ts:21-61 | An open group that alone holds the trimmed code can be joined by anyone signed in. |
| JoinGroup.JoinPreservesWellFormed | app/actions/join-group.ts:38-57 | A join never creates a second row for a (group, user) pair and never adds negative lives. |
| JoinGroup.JoinIsIdempotent | app/actions/join-group.ts:39-55 | With one row per (group, user) beforehand, a successful join leaves the caller exactly one row. Joining again reports membership and writes nothing. |
| CreateGroup.HandleCreate | app/dashboard/create-group/page.tsx:23-62 | A name whose trimmed length is below 3 is refused, and so is the case of no user ("No user found"). A datastore error is shown. In all of these nothing is inserted. Otherwise one open group is added with the trimmed name, the caller as admin and the generated code, and the page goes to /dashboard/group/<new id>. |
| CreateGroup.CreatedGroupIsWellNamed | app/dashboard/create-group/page.tsx:26-46 | A created group's name is already trimmed and at least 3 code units long. Its invite code has 10 characters and its status is open. |
| CreateGroup.CreatedGroupIsJoinable | app/dashboard/create-group/page.tsx:40-46 | A new group whose code no other group has can be joined by typing that code, padded or not. |
| SetupProfile.InsertErrorText | app/setup-profile/page.tsx:42-53 | Error code 23505 shows "Este nombre de usuario ya está en uso". Any other error shows its own message or the fallback. |
| SetupProfile.HandleSetup | app/setup-profile/page.tsx:18-57 | The untrimmed username must have length 3 or more. With no user, or on an insert error, nothing is written. Otherwise the caller's id gets a profile with the trimmed name and a generated token, and the page goes to /dashboard. The id is the primary key, so an insert for a caller who already has a profile comes with an error. An existing profile, and its token, is never rewritten. |
| SetupProfile.BrowserAcceptedNameIsTrimmed | app/setup-profile/page.tsx:74-83 | A name the form's pattern `[a-zA-Z0-9_]+` and minLength 3 accept has nothing to trim and is at least 3 characters long. |
| SetupProfile.BrowserAcceptedNameStoredAsTyped | app/setup-profile/page.tsx:21-40 | Such a name passes the handler and is stored exactly as typed. |
| SetupProfile.PaddedShortNamePasses | app/setup-profile/page.tsx:21-39 | Trimming happens after the length check, so "  a" passes and is stored as "a". |
| Register.HandleRegister | app/auth/register/page.tsx:21-52 | Sign-up is called, with email and password unchanged, exactly when the two passwords agree and have 6 or more code units. A mismatch is reported before the length. The page goes to /setup-profile only when sign-up reports no error. |
| Register.AstralPasswordOfThreeIsAccepted | app/auth/register/page.tsx:29-40 | The 6-character minimum counts UTF-16 code units. Any confirmed password of 3 or more characters outside the Basic Multilingual Plane (emoji, say) is sent to sign-up unchanged. |
| Register.ShortBmpPasswordIsRefused | app/auth/register/page.tsx:29-32 | A confirmed password of fewer than 6 characters, all inside the Basic Multilingual Plane, is refused as too short. Nothing is sent. |
| WishlistGrid.NormalizeUrl | components/santa/WishlistGrid.tsx:48 | The url is trimmed, and it becomes null exactly when nothing is left. |
| WishlistGrid.HandleAdd | components/santa/WishlistGrid.tsx:32-62 | An empty or whitespace-only title is refused and nothing is inserted. Otherwise one item is stored with the trimmed, non-empty title, the component's userId and the normalised url. The inputs reset only on success and are kept on error. |
| WishlistGrid.HandleDelete | components/santa/WishlistGrid.tsx:64-78 | A delete removes exactly the item with the given id, and every other item and table is kept. On error nothing changes. |
| WishlistGrid.RenderControls | components/santa/WishlistGrid.tsx:83-145 | The add form and the delete buttons appear only when isOwner is set. |
| WishlistGrid.DeleteOnlyFromOwnerView | components/santa/WishlistGrid.tsx:136-140 | A delete button exists only in the owner's view, and it removes exactly the listed item behind it. |

## Left out

- Datastore reads never fail in the model. In the source a failed read looks
  exactly like "no row":
  - a failed profile read gives "Invalid QR code" (app/actions/guess-santa.ts:14-22);
  - a failed membership read sends an existing member on to a second insert
    (app/actions/join-group.ts:39-55).

  So the success condition of GuessSanta.AttemptGuess, and the store invariants
  kept by JoinGroup.JoinPreservesWellFormed and JoinGroup.JoinIsIdempotent, hold
  only when reads succeed. Write failures are modelled: the remote call's error,
  a failed lives update and the insert errors are all inputs.

- Datastore client calls, `auth.getUser`, `revalidatePath`, router navigation and
  toasts are modelled as store reads and writes, environment inputs and
  returned values, not as I/O. `router.refresh` and the `loading` flags are not
  modelled.
- Concurrency: every action runs atomically. The read-then-write race on lives
  (app/actions/guess-santa.ts:35-48) is therefore not modelled.
- The SQL body of `attempt_guess`, row-level security policies, and the random draw
  are not part of this model. Match rows are an input.
- Column defaults: no modelled source file sets the `lives` default or the
  `status` default. The model assumes 3 lives and status 'open'.
- Ids, `qr_token` values and the `nanoid(10)` invite code are parameters, because
  they are generated outside the code. Invite codes are only assumed to be 10
  characters of nanoid's alphabet, and new ids are assumed fresh.
- `created_at` columns, `avatar_url` writes and the participants' surrogate `id`
  are not modelled. No handler in this model reads them.
- Camera and QR libraries, and all rendering, animation, clipboard and timer code.
  This includes the dashboard, home, login, giftee-reveal and invite-link
  components.
- Lives are integers. A fractional `lives` number from the datastore is not
  modelled.
- QrPayload.Parse: handles only JSON texts whose value is an object with string
  members. Any other valid JSON text (a number, an array, an object with a
  non-string member) counts as unparseable, so the model shows "QR inválido". The
  source would parse it, and for most such values it would show the "not this
  person" toast instead. `\u` escapes of unpaired surrogates are refused, because
  a Dafny `char` cannot hold one.
- Lone UTF-16 surrogates: a Dafny `char` is a Unicode scalar value, so no modelled
  string contains one. JavaScript strings can, and `JSON.stringify` escapes them
  as `\uD8xx`. So QrPayload.Encode, JsText.Trim and JsText.Utf16Length are stated
  only for strings of well-formed characters.
- ScanPage.HandleScan: an exception thrown while calling the guess action (a
  transport failure) is not modelled. Neither is a throw from `createClient()`
  at app/actions/guess-santa.ts:7, which sits outside the action's `try`.
- ScanPage.FetchGroups: the order of the participants query result is taken to be
  table order, and an embedded group that row-level security hides counts as
  missing.
- SetupProfile.HandleSetup: whether an insert fails, and with which error code,
  is an input. The one constraint the model enforces is the primary key: an
  insert for a caller who already has a profile must come with an error. Which
  code that error carries, and the username uniqueness constraint behind error
  23505, are not part of this model.
- The create-group page does not add the admin as a participant. Any datastore
  trigger that would do so is not part of this model.
