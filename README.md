# Tickety: a verified model of ticket decoding, the add-ticket form and login

Tickety is a small web front end that keeps short "tickets" (title, number,
content) as private gists of the user's account. This project models its
three pieces of decision logic in Dafny and proves properties of them:

- **The authenticated view** (`authed_app.dfy`). The `flatMap` callback turns
  each gist node of the GraphQL response into no ticket, one ticket, or an
  exception. The in-memory list (`tickets`, with `view` and `successMsg`) is
  replaced by a fetch, filtered by a delete and prepended to by a create.
  This is the class `AuthedState`; the decoder is the pure function
  `DecodeNode` and its lifting `DecodeNodes`.
- **The add-ticket form** (`add_ticket.dfy`). The class `AddTicketForm` holds
  the fields `title`, `number`, `content`, the flags `validated` and `error`,
  and the accordion `step`. Its submit handler opens the first invalid group
  in the order title, number, content, or calls `add`. `FirstInvalid` states
  that choice as a function.
- **The login form** (`login.dfy`). `Classify` is the pure decision from the
  reply to `GET /user` to either `onLogin(login)` or one of four messages.
  `LoginForm.Submit` applies it to the form state.

Shared modules: `wrappers.dfy` (Option, and `Settled` for how a promise
settled), `json.dfy` (the values `JSON.parse` returns), `tickets.dfy` (the
ticket record and the `POST /gists` body), and `js_text.dfy` (the JavaScript
built-ins the logic uses: `parseInt(s, 10)`, `String(n)` for integers below
10^21 in magnitude, and
`split`, with a `join` that undoes it).

Foreign calls are parameters, not definitions:
- `JSON.parse` is `parse: string -> Option<Value>`, with None where it throws.
- `JSON.stringify` is `stringify: Value -> string`.
- `atob` is `atob: string -> Option<string>`, with None where it throws.
- Every server call is represented by how it settled: a `Settled<T>` value, a
  `Reply`, or an `acknowledged` flag.

The three files are modelled as written, including where they disagree:
- The add form sends its own create request, and the view's `onAdd` sends
  another one. Both are modelled (`AddTicketForm.Add`, `AuthedState.Create`),
  with the same request body `CreateRequestFor`.
- Fetched tickets carry the GraphQL node id. Created tickets carry the REST id
  the create call returns.
- The add form's file name constant is taken to be `ticket.json`, the name
  the view hard-codes (src/AuthedApp.tsx:45, src/AuthedApp.tsx:89).
- The view renders the add form without the `user` prop the form takes
  (src/AuthedApp.tsx:84, src/AddTicket.tsx:11). In the assembled program,
  `user.octokit` (src/AddTicket.tsx:23) then throws inside the `try`, so every
  valid submit ends in the error notice and `onAdd` is never reached. The
  model gives each component its own inputs: `AddTicketForm.Add` is modelled
  for a form that has a client, and `AuthedState.Create` for an `onAdd` that
  is called.

The fetch runs one GraphQL query. It looks only at each gist's first file
(`files(limit: 1)`) and keeps the node id as the ticket id.

A `JSON.parse` result of `null` is modelled as the exception it causes. The
field access `parsed.number` sits outside the `try`, so the whole fulfilment
handler aborts and `tickets` keeps its old value (`NodeResult.Throw`,
`DecodeNodesAborts`, `AuthedState.FetchSettled`).

## Model

| member | source | states |
|---|---|---|
| `AuthedApp.TicketText` | src/AuthedApp.tsx:44-45 | a gist gets past the first check exactly when its files are present, its first file is named `ticket.json` and that file's text is a string; the text returned is that file's text |
| `AuthedApp.DecodeNode` | src/AuthedApp.tsx:44-58 | no ticket file, or text `JSON.parse` rejects, gives Drop. The callback throws exactly when the text parses to `null`. It keeps a ticket exactly when the parsed value is an object with a numeric `number` and a string `content`, with no range check on the number. The ticket is `{title: description, number, content, id: node id}` |
| `AuthedApp.DecodeNodes` | src/AuthedApp.tsx:43 | the decoded list is never longer than the node list |
| `AuthedApp.DecodeNodesAborts` | src/AuthedApp.tsx:43-59 | the fulfilment handler produces no list (and so leaves `tickets` alone) exactly when some node's text parses to `null` |
| `AuthedApp.DecodeNodesKeeps` | src/AuthedApp.tsx:43-58 | when the handler completes, every listed ticket is the ticket of some kept node, and every kept node's ticket is listed |
| `AuthedApp.DecodeNodesAppend` | src/AuthedApp.tsx:43 | decoding preserves node order: decoding `a + b` is decoding `a` followed by decoding `b`, and aborts if either part aborts |
| `AuthedApp.DroppedNodeIsSkipped` | src/AuthedApp.tsx:45-52 | a dropped gist is skipped silently; the gists before and after it decode exactly as if it were not there |
| `AuthedApp.CreatedTicketReadsBack` | src/AuthedApp.tsx:86-91 | if `JSON.parse` inverts `JSON.stringify` on the payload, the file the create request stores decodes to a ticket with the same title, number and content, carrying the node id |
| `AuthedApp.WithoutId` | src/AuthedApp.tsx:77 | after deleting `id`, the list holds exactly the old tickets whose id differs from `id`, and is no longer than before |
| `AuthedApp.WithoutIdAppend` | src/AuthedApp.tsx:77 | the delete filter keeps relative order: it distributes over concatenation |
| `AuthedApp.WithoutAbsentId` | src/AuthedApp.tsx:77 | deleting an id that no ticket carries leaves the list unchanged |
| `AuthedApp.WithoutIdIdempotent` | src/AuthedApp.tsx:77 | deleting the same id a second time changes nothing |
| `AuthedApp.CreateThenDelete` | src/AuthedApp.tsx:93 | deleting the id of a ticket just put first removes it and leaves the same list as deleting from the old list |
| `Tickets.CreateRequestFor` | src/AuthedApp.tsx:86-91 | the create request has the title as description, is private, and holds exactly one file, `ticket.json`, whose text is the serialised `{number, content}` object |
| `Tickets.Payload` | src/AuthedApp.tsx:89 | the stored object has exactly the keys `number` and `content`, holding the ticket's number and content |
| `AuthedApp.SliceFrom` | src/AuthedApp.tsx:75 | `slice(7)` is the text after the first seven characters, or empty for a shorter text |
| `AuthedApp.DeleteTarget` | src/AuthedApp.tsx:75 | a `gist_id` is requested exactly when `atob` accepts the ticket id; it is the decoded text after its first seven characters, or empty when the text is seven characters or shorter |
| `AuthedApp.AuthedState.constructor` | src/AuthedApp.tsx:21-23 | the view starts on the list, with no tickets and no success notice |
| `AuthedApp.AuthedState.OpenAdd` | src/AuthedApp.tsx:69 | the create button switches to the add view and touches nothing else |
| `AuthedApp.AuthedState.FetchSettled` | src/AuthedApp.tsx:43-59 | a fulfilled query that no node aborts replaces the list with the decoded tickets; a rejected query or an aborted handler leaves it as it was; view and notice never change |
| `AuthedApp.AuthedState.Delete` | src/AuthedApp.tsx:71-79 | the request goes to `DeleteTarget(id)`. Only an acknowledged request removes the tickets with that id; otherwise nothing changes. The success notice is never set |
| `AuthedApp.AuthedState.Create` | src/AuthedApp.tsx:84-96 | the request carries the title as description and one private `ticket.json` file with `{number, content}`. On success the ticket with the returned id comes first, the list view shows and the notice is on. On failure nothing changes |
| `AddTicket.FirstInvalid` | src/AddTicket.tsx:38-49 | the chosen group blocks submission and every group checked before it (title, then number, then content) is valid; no group is chosen only when all three are valid |
| `AddTicket.AddTicketForm.constructor` | src/AddTicket.tsx:12-19 | empty title and content, no number, no validation or error shown, title group open |
| `AddTicket.AddTicketForm.EditTitle` | src/AddTicket.tsx:58 | typing sets the title and nothing else |
| `AddTicket.AddTicketForm.EditNumber` | src/AddTicket.tsx:71-74 | typing stores `parseInt(text, 10)`, or null when that is NaN, and nothing else |
| `AddTicket.AddTicketForm.EditContent` | src/AddTicket.tsx:87 | typing sets the content and nothing else |
| `AddTicket.AddTicketForm.Select` | src/AddTicket.tsx:51 | the accordion sets `step` to the chosen key, or to none for a null key, without touching the fields or flags |
| `AddTicket.AddTicketForm.Submit` | src/AddTicket.tsx:36-50 | with an invalid field, the first invalid group opens, `validated` turns on and `add` is not called. With all fields valid, `add` is called with exactly `{title, number, content}` (number at least 1) and the step and flags stay. Fields never change |
| `AddTicket.AddTicketForm.Add` | src/AddTicket.tsx:21-34 | `add` sends the ticket create request. On success it calls `onAdd` with the draft plus the returned id. On failure it sets `error` and does not call `onAdd` |
| `AddTicket.ValidFormSubmits` | src/AddTicket.tsx:38-48 | a form filled in as `Bug`, `3`, `desc` stores the number 3 and passes every check |
| `JsText.ShowNat` | src/Login.tsx:40 | the decimal text of a non-negative integer is non-empty, all digits, without leading zeros, and denotes that integer |
| `JsText.TrimStart` | src/AddTicket.tsx:72 | `parseInt` skips only white space: it continues from a suffix of the input, every skipped character is white space, and the suffix does not start with white space |
| `JsText.ParseInt` | src/AddTicket.tsx:72 | `parseInt(s, 10)` yields a number only when the text holds a decimal digit, and a negative number only when it holds a minus sign |
| `JsText.DigitPrefix` | src/AddTicket.tsx:72 | `parseInt` reads the longest run of decimal digits at that point |
| `JsText.ParseIntShowInt` | src/AddTicket.tsx:72-73 | `parseInt` reads back the decimal text of every integer, whatever non-digit text follows it |
| `JsText.ParseIntSkipsSpace` | src/AddTicket.tsx:72 | leading white space does not change what `parseInt` reads |
| `JsText.ParseIntNoDigit` | src/AddTicket.tsx:72-73 | text without any digit is NaN, so the number field becomes null |
| `JsText.SplitFrom` | src/Login.tsx:28 | `split` always yields at least one piece |
| `JsText.SplitPiecesOccur` | src/Login.tsx:28 | every piece of `split` occurs as contiguous text in the split string |
| `JsText.SplitJoin` | src/Login.tsx:28 | joining the pieces of `split(sep)` with `sep` gives back the header |
| `JsText.SplitWithoutSeparator` | src/Login.tsx:28 | a header without the separator's first character is a single piece |
| `JsText.SplitFromAround` | src/Login.tsx:28 | text free of the separator's first character, followed by the separator, is one whole piece, and splitting resumes after the separator |
| `Login.OtherError` | src/Login.tsx:40 | the generic message starts with `Wystąpił błąd. (`, ends with `)`, and never equals one of the three specific messages |
| `Login.HasGistScope` | src/Login.tsx:28 | the header lists the `gist` scope only if it is present and contains the text `gist` |
| `Login.Classify` | src/Login.tsx:26-41 | login is accepted exactly when the returned login equals the username (case-sensitive) and the scopes list `gist`, and it is accepted under that login. A login mismatch is reported before the scope check. Status 401 means invalid credentials, status 500 a failed connection, and any other status exactly `OtherError(status, message)` |
| `Login.LoginForm.constructor` | src/Login.tsx:10-13 | empty username and token, validation off, no error |
| `Login.LoginForm.EditUsername` | src/Login.tsx:46 | typing sets the username and nothing else |
| `Login.LoginForm.EditToken` | src/Login.tsx:50 | typing sets the token and nothing else |
| `Login.LoginForm.Submit` | src/Login.tsx:16-42 | an invalid form only turns validation on: no request, no callback, error kept. Otherwise validation is turned off, and either `onLogin(login, token)` is called with the error left as it was, or the classified message becomes the error |
| `Login.GistScopeListed` | src/Login.test.tsx:18-24 | the header `user, gist` lists the `gist` scope, and so does `gist` alone |
| `Login.GistScopeNotListed` | src/Login.tsx:28 | a missing header lists no scope, and `gists` is not `gist`, alone or after other scopes |
| `Login.LoginSucceeds` | src/Login.test.tsx:18-29 | `test_user` with scopes `user, gist` is logged in |
| `Login.LoginWithoutScopes` | src/Login.test.tsx:31-38 | a matching login without a scopes header gets the gist-scope message |
| `Login.LoginStatusMessages` | src/Login.test.tsx:40-52 | status 401 gives the invalid-credentials message and status 500 the connection message |
| `Login.LoginNoResponse` | src/Login.test.tsx:64-69 | a request that got no response gives the connection message |
| `Login.LoginOtherStatus` | src/Login.test.tsx:54-62 | status 400 with message `Test message` gives `Wystąpił błąd. (400 Test message)` |
| `Login.LoginIsCaseSensitive` | src/Login.tsx:26-27 | a login that differs from the username only in case is refused as invalid credentials |

## Left out

- The Octokit REST and GraphQL calls, `fetch` and the query text: each call is represented by how it settled (a parameter).
- `JSON.parse`, `JSON.stringify` and `atob` are foreign built-ins: they are parameters. No JSON round trip is claimed; `CreatedTicketReadsBack` assumes it.
- src/App.tsx (credential storage in `localStorage`, navigation bar, switching between login and the authenticated view) and src/List.tsx (rendering only) are not part of this model.
- Overlapping `setTickets` calls, handlers that close over a stale `tickets`, the `useEffect` re-fetch when the token changes, and `console.dir` logging are asynchronous or UI concerns and are not modelled.
- The `token` versus `user` prop mismatch between the app shell and the authenticated view is not modelled; the view's calls are abstract.
- The missing `user` prop on the add form is not modelled: `AddTicketForm.Add` assumes the form's create call can be made.
- `String(n)` switches to exponent notation from 10^21 upward; `ShowNat` and `ShowInt` model integers below that (HTTP statuses are far below it).
- The add form imports a file name constant that the view does not export. The model uses `ticket.json`, the name the view hard-codes.
- A gist description of `null` is not modelled: `GistNode.description` is a string.
- JavaScript numbers are reals in the model. A number `JSON.parse` reads as ±Infinity (a literal such as `1e999`) is not modelled, although the decoder would keep it as a ticket number. Rounding of parsed numbers to doubles is not modelled either. Nor are the rounding of `parseInt` results beyond 2^53 and its `-0`; they matter only far above any ticket number or below 1.
- The browser's own sanitising of the value of a number input is not modelled: `EditNumber` accepts any text.
- `LoginForm.FormValid` models the browser's `checkValidity` as "both required inputs are non-empty".
- Login requests that get no response are modelled as request errors with status 500, the status the HTTP client reports for them (`NoResponse`).
- `AuthedApp.DecodeNodes`: its own contract states only the length bound. Abort, membership and order are stated by the lemmas `DecodeNodesAborts`, `DecodeNodesKeeps` and `DecodeNodesAppend`.
