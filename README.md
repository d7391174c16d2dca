# User management App: a Dafny model

This project models the `App` component of a small user-directory web page. The page lists users, lets
the visitor search that list, and has a form to create a user or edit one. Persistence is a remote REST
service. The model has two parts:

- **The search filter** (modules `Text` and `Search`). This is the expression that decides which users
  the table shows. A user is kept when the lower-cased search term is a substring of the lower-cased
  first name, last name or e-mail address. `Filter` models it as a recursive function over `seq<User>`.
  The lemmas prove that the result is an order-preserving subsequence of the list. They also give every
  user's exact number of occurrences in the result and prove membership in both directions. Further
  lemmas cover the empty search term (the whole list), idempotence, splitting over concatenation and
  case-insensitivity. `Text.Includes` models `includes` and is proved equal to the "occurs at some
  position" predicate `Text.Contains`.
- **The component state and its handlers** (module `AppController`, class `App`). The class fields are
  the component's `useState` slots: `users`, `currentUser`, `isEditing`, `loading`, `searchTerm` and
  `notification`. Each handler is a method that runs as one atomic step. Its contract states the whole
  new state and says which fields stay unchanged. The outside world is abstracted:
  - Inputs: the outcome of each service call (the `getUsers` response, or `ok` for create, update and
    delete) and the answer to the confirm dialog are method parameters.
  - Recorded outputs: every request to the outside world is appended to the `effects` log. These are
    the service call issued (with its user and id), the confirm prompt text, the scroll to the form,
    the start of the 3000 ms notification timer and the page reload.
  - Invariant: `Valid()` is kept by every handler. It says a hidden notification is blank and a draft
    that is not an edit has no id, so a create never sends an id.

Module `Scenarios` holds client methods proved from the handler contracts alone. They cover edit then
cancel, reset twice, a full edit session and a failed create.

Three behaviours of the code shape the model:
- After a successful create, update or delete, the component calls `window.location.reload()`
  (src/App.js:85, 105) and does not patch `users` itself. So the model leaves `users` unchanged and
  records `Reload`.
- A failed delete shows the message `"Delete failed"` (src/App.js:107).
- Every `showNotification` call schedules its own 3000 ms timer (src/App.js:47), so the model records
  one `StartTimer(3000)` per notification.

## Model

| member | source | states |
|---|---|---|
| Text.Lower | src/App.js:117-119 | `toLowerCase` keeps the length and maps each character independently (ASCII letters only) |
| Text.LowerIdempotent | src/App.js:117-119 | lower-casing an already lower-cased string changes nothing |
| Text.IncludesIsContains | src/App.js:117-119 | `includes` is true exactly when the needle occurs at some position of the string (both directions) |
| Text.IncludesEmpty | src/App.js:117-119 | every string includes the empty string |
| Users.WithField | src/App.js:57 | `{...currentUser, [name]: value}` sets the named field to `value` and leaves the id and the other two fields as they were |
| Users.WithFieldSameValue | src/App.js:57 | writing back a field's current value leaves the user unchanged |
| Users.WithFieldOverwrite | src/App.js:57 | a later change to the same input overrides an earlier one |
| Search.Filter | src/App.js:115-120 | the result is no longer than the list, and each kept user is in the list and matches the term |
| Search.MatchesMeaning | src/App.js:116-119 | a user matches exactly when the lower-cased term occurs in the lower-cased first name, last name or e-mail |
| Search.FilterMembership | src/App.js:115-120 | a user is in the filtered list if and only if it is in the list and matches; users failing all three tests are dropped |
| Search.FilterCount | src/App.js:115-120 | a matching user keeps all its occurrences in the result; a non-matching user has none |
| Search.FilterIsSubsequence | src/App.js:115-120 | the filtered list is the list with some users dropped and the rest in their original order |
| Search.FilterAppend | src/App.js:115-120 | filtering a concatenation equals concatenating the filtered parts |
| Search.FilterAllMatch | src/App.js:115-120 | when every user matches, the filter returns the list itself |
| Search.FilterNoneMatch | src/App.js:115-120 | when no user matches, the filter returns the empty list ("No users found") |
| Search.FilterEmptyTerm | src/App.js:115-120 | an empty search term returns exactly the whole list, in order |
| Search.FilterIdempotent | src/App.js:115-120 | filtering twice by the same term equals filtering once |
| Search.FilterIgnoresCase | src/App.js:115-120 | two terms equal up to letter case select the same users |
| Search.FilterLowerTerm | src/App.js:115-120 | typing the term in lower case selects the same users |
| AppController.App.FilteredUsers | src/App.js:115-120 | a user is in the list under the search box iff it is in `users` and matches; each matching user keeps every copy and each other user none; the list is a subsequence of `users`, and all of `users` for an empty term |
| AppController.App.constructor | src/App.js:6-20 | the initial state: no users, the empty draft, not editing, loading, empty search term, hidden notification |
| AppController.App.ShowNotification | src/App.js:45-47 | sets the notification to shown with the given message and type, starts a 3000 ms timer and changes nothing else |
| AppController.App.ClearNotification | src/App.js:47-49 | the timer firing hides and blanks the notification and changes nothing else |
| AppController.App.LoadUsers | src/App.js:25-40 | issues `getUsers`; on success `users` becomes the response data; on failure `users` is kept and "Error loading users" is shown as an error; `loading` ends false either way |
| AppController.App.HandleInputChange | src/App.js:55-58 | only the named draft field changes, to the typed value; the id, the other fields and all other state are unchanged |
| AppController.App.HandleSearchChange | src/App.js:150-155 | only the search term changes |
| AppController.App.ResetForm | src/App.js:60-63 | whatever the prior state, leaves edit mode and the empty draft; the list, notification and effects are unchanged |
| AppController.App.HandleEdit | src/App.js:94-98 | enters edit mode with the chosen user as draft, requests the scroll to the form, leaves `users` unchanged |
| AppController.App.HandleSubmit | src/App.js:74-89 | calls update with the draft and its id if editing, create otherwise (with no id); on success shows the updated/created message, resets the form and requests a reload; on failure shows "Operation failed. Please try again.", keeps draft and mode, and requests no reload |
| AppController.App.HandleDelete | src/App.js:100-110 | always shows the prompt "Delete name?"; if declined, makes no call and changes no state; if confirmed, calls delete with the id, then shows success and requests a reload, or shows "Delete failed" with no reload; `users` is unchanged |
| Scenarios.EditThenReset | src/App.js:94-98 | edit followed by cancel returns to the empty draft out of edit mode, with the list unchanged |
| Scenarios.ResetTwice | src/App.js:60-63 | resetting twice gives the same state as resetting once |
| Scenarios.EditSession | src/App.js:74-89 | load, search in another case, edit the e-mail, save: update is sent with the new e-mail, success is shown, the form is reset and a reload is requested |
| Scenarios.FailedCreateKeepsDraft | src/App.js:86-88 | a failed create keeps the typed draft (with no id), shows the error and requests no reload |

## Left out

- src/UserService.js: the HTTP wrappers (base URL, GET/POST/PUT/DELETE) are not modelled. Each call's
  outcome is a parameter, and the call itself is recorded as an `Effect`. `getUserById` is never used
  by the component.
- The JSX rendering (src/App.js:122-267) is not modelled: the "Loading..." and "No users found" texts,
  the table, the footer count and the form's `required` attributes. The model therefore lets a form with
  empty fields be submitted. In the page, the browser blocks that before `handleSubmit` runs.
- `scrollToForm` (src/App.js:65-69) and `e.preventDefault()` are DOM calls. The scroll is only recorded
  as `ScrollToForm`; `preventDefault` is left out.
- `window.confirm` is the `confirmed` parameter. `window.location.reload()` is only recorded as
  `Reload`: a reload throws away all in-memory state, and the model does not follow the page past it.
- `setTimeout` timing: the 3000 ms delay is recorded as `StartTimer(3000)`, and the timer firing is the
  separate `ClearNotification` event. The model does not say which timer fires when, so it does not
  capture that an earlier timer can clear a later notification early.
- Asynchronous interleaving of the awaited service calls and React's batching of state updates are not
  modelled: each handler is one atomic step.
- `toLowerCase` is modelled on ASCII letters only, and strings are sequences of characters with no
  Unicode case mapping.
- `handleInputChange` reads the input's `name` attribute. The model restricts it to the three names the
  form defines (`firstName`, `lastName`, `email`). Any other name would add a new property to the draft.
- AppController.App.HandleEdit: the draft is the very user object from the list, as in the code. The
  model works on values, so it cannot express aliasing. In the code, `handleInputChange` always builds
  a new object, so the list entry is never changed through the draft either.
- Server records are assumed to carry string fields (`User` has `string` first name, last name and
  e-mail). A record with a null or missing field would make the filter's `toLowerCase` call throw
  (src/App.js:117-119), and the model has no such record.
