# HabeshaBeauty core logic in Dafny

A Dafny model of the decision logic inside the HabeshaBeauty marketing site
and seller dashboard (a React/TypeScript front end with no server). Four
pieces are modelled as pure functions over immutable records:

- **Credential check** (`AuthService`, built on `Text`): the phone number
  loses every `\s` character, the username is lower-cased and loses its
  first `@`, and both must equal the one pre-provisioned account
  (`+251975594607` / `messi-love1`); any mismatch throws one fixed message.
- **Dashboard** (`Dashboard`, over the records in `Profile`): the file
  validator (type prefix `image/`, then an inclusive 5 MiB ceiling), the
  upload form's selection/preview/error, publishing an upload at the front
  of the portfolio, the settings draft and its save, and the
  "recent sales" panel (first three Sold photos). These edits live only in
  the dashboard's local copy of the profile and never reach the page's
  current user, so uploads and saved settings are lost whenever the
  dashboard unmounts, for instance when navigating home.
- **Session and view** (`App`): login by case-insensitive lookup in the
  mock account list or a fresh new-user profile, the demo login's random
  pick, logout, navigation, and when the dashboard replaces the landing page.
- **Login modal** (`AuthModal`): the input and success steps, the loading
  flag and error message around an attempt, the reset on close, and the
  success callbacks (`onLoginSuccess` with the raw typed username, then
  `onClose`), which `App.Deliver` runs against the page state.

Modelling choices:

- The sources name `AuthStep.LOGIN_INPUT`, which `types.ts` does not
  declare; the model uses its own `Step = LoginInput | Success`.
- `UserProfile` and `MOCK_USERS` are imported from `./types` and
  `./constants` (App.tsx:6-7, components/Dashboard.tsx:3), but neither
  `types.ts` nor `constants.ts` declares them. `Profile.UserProfile` has
  the fields the code reads; the account list is
  a parameter `users: seq<UserProfile>` everywhere it is used.
- `Date.now()` photo ids are a parameter `id` (no uniqueness is claimed);
  `Math.floor(Math.random() * n)` is a parameter `choice < n`;
  `URL.createObjectURL` is a parameter `url`, an opaque preview token.
- The `await`/`setTimeout` delays are collapsed: one login attempt and one
  upload are each a single atomic transition.
- With no account that has photos, the demo button indexes an empty array;
  the result is `undefined`, so the model signs nobody in while the view
  still switches to the dashboard (which then is not shown).
- There is no code-verification step and no delete handler. `replace('@', '')` removes the first `@` wherever it
  occurs, not only a leading one.
- The credential check and the profile lookup normalise the username
  differently: the check lower-cases and drops the first `@`, the lookup
  only lower-cases. A name such as `@messi-love1` therefore passes the
  check but matches no mock account.
- `\s` is modelled as the exact ECMAScript WhiteSpace and LineTerminator
  code point set.

## Model

| member | source | states |
|---|---|---|
| Text.StripWhitespace | services/authService.ts:17 | the cleaned phone holds no whitespace character, is no longer than the input, and equals the input when it had none |
| Text.StripAppend | services/authService.ts:17 | stripping distributes over concatenation, so whitespace anywhere in the string is removed and the remaining characters keep their order |
| Text.StripKeepsOthers | services/authService.ts:17 | every non-whitespace character occurs in the cleaned phone exactly as often as in the input |
| Text.StripIdempotent | services/authService.ts:17 | cleaning the phone twice gives the same result as once |
| Text.LowerChar | services/authService.ts:18 | lower-casing maps an ASCII capital to its small letter and leaves every other character alone; no capital remains |
| Text.LowerIdempotent | services/authService.ts:18 | lower-casing twice is lower-casing once |
| Text.LowerFixedIff | services/authService.ts:18 | a string is unchanged by lower-casing iff it contains no ASCII capital |
| Text.RemoveFirst | services/authService.ts:18 | `replace('@', '')` removes exactly one character, the first `@`, and leaves strings without `@` unchanged |
| Text.RemoveFirstYields | services/authService.ts:18 | removing the first `@` yields an `@`-free name iff the input is that name or that name with one `@` inserted at some position |
| AuthService.LoginUser | services/authService.ts:8-25 | the check succeeds iff the cleaned phone is `+251975594607` and the cleaned username is `messi-love1`; success returns true and failure carries the fixed invalid-credentials message |
| AuthService.LoginAcceptedIff | services/authService.ts:17-25 | accepted logins are exactly: phone's non-whitespace characters spell the number, and the lower-cased username is the account name, optionally with one `@` anywhere |
| AuthService.MismatchIsUniform | services/authService.ts:21-23 | whichever field is wrong, the error is the same fixed message |
| AuthService.StripGroups | services/authService.ts:17 | dial-character groups joined by single spaces clean to the groups run together |
| AuthService.AcceptsSpacedPhone | services/authService.ts:17 | `+251 975 594 607` cleans to the valid number |
| AuthService.AcceptsCapitals | services/authService.ts:18 | `MESSI-LOVE1` cleans to the valid username |
| AuthService.AcceptsSpacedPhoneAndCapitals | services/authService.ts:8-25 | the spaced phone with the capitalised username logs in |
| AuthService.AcceptsInnerAt | services/authService.ts:18 | `messi@-love1` and `@messi-love1` clean to the valid username |
| AuthService.RejectsDoubleAt | services/authService.ts:18-23 | `@@messi-love1` is rejected because only the first `@` is removed |
| AuthService.RejectsLeadingWhitespace | services/authService.ts:18-23 | whitespace in the username is kept: a username starting with whitespace, such as ` messi-love1`, keeps that character after cleaning and is rejected |
| Dashboard.Init | components/Dashboard.tsx:11-35 | a mounted dashboard opens on Overview with an empty upload form and a settings draft that saves back to the same profile |
| Dashboard.ValidateFile | components/Dashboard.tsx:51-59 | type message iff the type does not start with `image/`; size message iff it is an image over 5·1024·1024 bytes; accepted iff an image of at most that size |
| Dashboard.FiveMebibytesAccepted | components/Dashboard.tsx:55-58 | an image of exactly 5 MiB is accepted |
| Dashboard.OneByteOverRejected | components/Dashboard.tsx:55-56 | an image one byte over 5 MiB gets the size message |
| Dashboard.TypeCheckedBeforeSize | components/Dashboard.tsx:51-54 | an oversized non-image gets the type message |
| Dashboard.SelectFile | components/Dashboard.tsx:71-101 | no file changes nothing; a rejected first file only sets the error, keeping selection and preview; an accepted one clears the error and becomes the selection with its preview |
| Dashboard.ClearFile | components/Dashboard.tsx:103-109 | selection, preview and error all become none |
| Dashboard.ClearUndoesSelect | components/Dashboard.tsx:103-107 | choosing a file and then clearing leaves the same form as clearing alone |
| Dashboard.UploadSubmit | components/Dashboard.tsx:111-139 | without a selected file nothing changes; otherwise exactly one Active `500 ETB` `New Upload` photo dated `Just now` with the preview URL is put in front, the old list follows unchanged, the rest of the profile is kept, the Photos tab opens and the form is cleared |
| Dashboard.ChangeSetting | components/Dashboard.tsx:37-40 | the named draft field takes the new value and every other field keeps its value |
| Dashboard.SaveSettings | components/Dashboard.tsx:42-48 | the saved profile's four editable fields are the draft's; username, phone, stats, photos and the new-user flag are unchanged |
| Dashboard.SaveUneditedIsIdentity | components/Dashboard.tsx:30-46 | saving the draft the form starts from leaves the profile unchanged |
| Dashboard.SaveTwice | components/Dashboard.tsx:42-46 | a second save overrides the first completely |
| Dashboard.SoldPhotos | components/Dashboard.tsx:254 | the filter keeps Sold photos only and is empty iff no photo is Sold |
| Dashboard.SoldPhotosMembers | components/Dashboard.tsx:254 | a photo is in the filtered list iff it is in the portfolio with status Sold |
| Dashboard.SoldPhotosAppend | components/Dashboard.tsx:254 | the filter distributes over concatenation, so list order is kept |
| Dashboard.RecentSales | components/Dashboard.tsx:252-254 | the recent list is the first at most 3 Sold photos in list order, and is empty iff no photo is Sold |
| Dashboard.Apply | components/Dashboard.tsx:179-521 | each UI event touches only its own slice: the tab buttons set the tab, the file inputs only the form, the settings inputs only the draft, and only upload and save write the profile, save never touching photos or stats |
| Dashboard.StepKeepsProfile | components/Dashboard.tsx:37-139 | no dashboard event changes username, phone, stats or the new-user flag, removes or reorders a photo, or changes the Sold photos |
| Dashboard.RunPreservesProfile | components/Dashboard.tsx:37-139 | the same holds over any sequence of dashboard events |
| AuthModal.OnOpenChange | components/AuthModal.tsx:19-28 | when closed, step is the input step, phone and username are empty, error is none and loading is false; while open nothing changes |
| AuthModal.Render | components/AuthModal.tsx:51 | nothing is rendered iff the modal is closed; otherwise the current step's panel |
| AuthModal.TypePhone | components/AuthModal.tsx:98 | typing in the phone field changes only the phone |
| AuthModal.TypeUsername | components/AuthModal.tsx:83 | typing in the username field changes only the username |
| AuthModal.BeginAttempt | components/AuthModal.tsx:30-33 | an attempt first clears the error and sets loading, changing nothing else |
| AuthModal.ErrorText | components/AuthModal.tsx:45 | the shown error is never empty: the thrown message, or the fallback text when that is empty |
| AuthModal.Settle | components/AuthModal.tsx:35-48 | a resolved check moves to SUCCESS and schedules the success callback with the typed username before the close request; a rejection keeps the step and shows the message; loading ends either way |
| AuthModal.HandleLogin | components/AuthModal.tsx:30-49 | a whole attempt: success step and the two callbacks iff the credentials are accepted, otherwise the fixed invalid-credentials message and no callback; loading is false afterwards |
| AuthModal.AttemptFromInput | components/AuthModal.tsx:35-45 | from the input step the attempt reaches SUCCESS iff the check accepts; on failure the error is the fixed message, never the fallback |
| AuthModal.CallbackGetsRawUsername | components/AuthModal.tsx:40-43 | with `MESSI-LOVE1` typed, the success callback receives `MESSI-LOVE1`, not the cleaned name, and precedes the close request |
| AuthModal.CloseThenOpen | components/AuthModal.tsx:19-28 | closing and reopening shows an empty input step whatever the previous state |
| App.FindUserIndex | App.tsx:51 | the lookup returns the first account whose username equals the given one case-insensitively, and none iff no account matches |
| App.LoginSuccess | App.tsx:49-70 | the first case-insensitive match becomes current, or else a fresh profile with the name verbatim, `New`/`User`, the default bank, no photos, zero counts, `0 ETB` and the new-user flag; the view becomes the dashboard |
| App.DemoUsers | App.tsx:74 | the demo candidates are exactly the accounts with at least one photo |
| App.DemoLogin | App.tsx:72-78 | when some account has photos, the pick is such an account from the list; when none has, nobody is signed in; the view becomes the dashboard |
| App.DemoCanPickAny | App.tsx:74-76 | every account with photos is a possible outcome of the random pick |
| App.InitialPage | App.tsx:45-47 | the page starts on home with nobody signed in and the modal closed, so no dashboard and no modal are shown, and the modal starts fresh |
| App.Logout | App.tsx:80-83 | logout clears the user and returns to the home view |
| App.NavigateHome | App.tsx:85 | only the view changes, to home |
| App.NavigateDashboard | App.tsx:86 | only the view changes, to the dashboard |
| App.HeroClick | App.tsx:169 | the hero button navigates to the dashboard when signed in and performs the demo login otherwise |
| App.Visibility | App.tsx:144 | the dashboard is shown after a login, never after logout or going home, and after navigating to it iff a user is present |
| App.NoResidueAfterLogout | App.tsx:49-83 | after a logout, the next login's user depends only on the account list and the name, not on the earlier session |
| App.CloseAuth | App.tsx:395 | closing an open modal clears the open flag, keeps user and view, and resets the modal |
| App.Deliver | App.tsx:394-396 | running scheduled callbacks: any login callback signs someone in and shows the dashboard, none leaves user and view alone; any close request leaves the modal closed and resets an open one, none leaves the modal state and flag alone; on a closed modal the modal state is never touched |
| App.OpenAuth | App.tsx:133 | the login buttons open the modal and change nothing else |
| App.AtPrefixedLoginGetsFreshProfile | components/AuthModal.tsx:36-43 | with the valid phone, `@messi-love1` passes the credential check, and when no account name holds an `@` the attempt signs in a fresh new-user profile named `@messi-love1` rather than the `messi-love1` account |
| App.SuccessfulAttemptSignsIn | components/AuthModal.tsx:36-43 | after a successful attempt's callbacks run, the user is the one looked up by the raw typed name, the dashboard is shown, and the modal is closed, reset and renders nothing |
| App.FailedAttemptChangesNothing | components/AuthModal.tsx:44-45 | a failed attempt schedules no callback, so the page state is unchanged |

## Left out

- Rendering (JSX, CSS classes, icons) and the drag-hover flag `dragActive`: presentation only.
- The `setTimeout`/`await` delays in the login service, the modal and the upload, and the `isUploading` flag that only lasts for the delay: as a modelling choice each attempt and upload is one atomic step, so events that arrive while one is pending are not modelled. In the code such events do interleave: closing the modal during an attempt still signs the user in and leaves the SUCCESS panel for the next opening, and a file chosen during an upload is wiped, and the Photos tab forced, when the upload completes.
- AuthModal.CloseThenOpen: holds only when no login attempt is pending while the modal is closed.
- App.SuccessfulAttemptSignsIn: holds only when no event arrives between the submit and the callbacks.
- Dashboard.UploadSubmit: holds only when no event arrives during the upload delay. The browser's `required` constraint validation (a non-empty title, a price of at least 50, components/Dashboard.tsx:387,400-401) which blocks submission before the handler runs is not modelled; the typed title and price are never read by the handler.
- AuthModal.HandleLogin: the browser's `required` constraint validation on the username and phone inputs (components/AuthModal.tsx:80,95), which blocks submission of an empty field before the handler runs, is not modelled; the model lets an empty field reach the credential check, which rejects it.
- `URL.createObjectURL`/`revokeObjectURL`, `alert`, `console.log` and the file input reference: browser calls; the preview URL is a parameter. Because the upload's completion calls `clearFile`, which revokes the preview URL just stored in the new photo, the new portfolio entry in the code points at a revoked URL; the model keeps the URL as an opaque token.
- The megabyte display with `toFixed` (components/Dashboard.tsx:364): floating point.
- The title, price, category and description inputs of the upload form: they are not wired to any state.
- Edit and Delete buttons: they have no handlers, so there is no deletion. There is no code-verification step in this code.
- Photo id uniqueness: ids come from `Date.now()`, which is a parameter here, so no uniqueness is claimed.
- The dashboard's re-sync of its local profile when the `user` prop changes (components/Dashboard.tsx:17-19).
- constants.ts and components/TestimonialCard.tsx: static content and star rendering.
- Text.LowerChar: folds only ASCII capitals, because Unicode case mapping is outside this model.
- App.DemoLogin: `choice` is any valid index, not a distribution, because `Math.random` is not modelled.
