# Waitlist invitation pipeline, modelled in Dafny

This project models the invitation pipeline of the menuwaitlist dashboard, a
Next.js admin page for a product waitlist. An operator selects users in the
waitlist table and types a TestFlight link and an optional message in the
composer. The composer posts the selected addresses to the bulk endpoint
`POST /api/send-email`. The endpoint renders one HTML email per address,
hands it to the SMTP transport and reports on the batch.

Modules, one per source file, plus three shared ones:

- `Wrappers` holds `Option`, standing for a JavaScript property that may be
  absent.

- `Text` holds the JavaScript string operations the four files share: `trim()`
  over JavaScript's whitespace set, `split("@")[0]`, `||` on strings, and the
  decimal rendering of a count.
- `Template` holds the shape of a rendered template literal: a sequence of
  fixed-markup pieces, named by fragment, and verbatim caller text.
- `Email` models `lib/email.ts`. `sendEmail` is reduced to its result
  contract. `generateTestFlightEmailHTML` chooses between two layouts.
- `SendEmailRoute` models `app/api/send-email/route.ts`. `Post` is a method
  with the source's loop. It is proved equal to the specification function
  `Respond` and to a ghost event trace `Trace` of sends and pauses.
- `WaitlistTable` models `components/WaitlistTable.tsx`: toggling one user,
  select-all, the header checkbox, the row highlight and the search endpoint.
  It also models the class `WaitlistView`, whose `FetchUsers` loads the list.
- `EmailComposer` models `components/EmailComposer.tsx`: the send guards, the
  request body, the class `Composer` whose `HandleSend` resets the form, and
  the preview template.

The mail library is an oracle `transport(i, mail)`: how the `i`-th send of
a batch settles. The 100 ms pause is a `Pause` event in the ghost trace. The
fetch calls of the two components are function parameters. So is
`encodeURIComponent`.

Two behaviours of the source are proved as they are written.

- The endpoint's link check only tests truthiness. A whitespace-only link
  passes it, yet every mail is then rendered with the message layout
  (`BlankLinkPassesValidation`).
- The server template drops the custom message whenever the link is usable.
  The composer always sends a usable, trimmed link. So a message typed in
  the composer never reaches the recipients, although the composer's
  preview shows it (`ComposerMailsIgnoreMessage`, `PreviewMatchesFirstMail`).
  The composer's help text under the message field says the opposite: that
  the message will be included in the content body
  (components/EmailComposer.tsx:197).

## Model

| member | source | states |
|---|---|---|
| Text.TrimStartSpec | components/EmailComposer.tsx:32 | `trim()` removes exactly the leading run of JavaScript whitespace |
| Text.TrimEndSpec | components/EmailComposer.tsx:32 | `trim()` removes exactly the trailing run of JavaScript whitespace |
| Text.TrimIsInfix | components/EmailComposer.tsx:55 | the trimmed string is the infix left after whitespace is cut from both ends, and it neither starts nor ends with whitespace |
| Text.TrimOfTrimmed | components/EmailComposer.tsx:55 | a string without whitespace at either end is its own trim |
| Text.TrimIdempotent | components/EmailComposer.tsx:55 | trimming twice equals trimming once |
| Text.TrimEmptyIffAllSpace | lib/email.ts:45 | a string trims to "" exactly when it is whitespace only |
| Text.LocalPartSpec | app/api/send-email/route.ts:28 | `split("@")[0]` is the prefix of the address that has no `@` and ends at the first `@` or at the end |
| Text.LocalPartUnique | app/api/send-email/route.ts:28 | no other prefix of the address has those properties |
| Text.OrElse | app/api/send-email/route.ts:24 | `s \|\| fallback` on strings gives `s` unless `s` is empty |
| Text.Digit | app/api/send-email/route.ts:55 | each digit of a printed count is a decimal digit character |
| Text.DecimalIsNumeral | app/api/send-email/route.ts:55 | a count prints as a non-empty string of digits with no leading zero |
| Text.DecimalValue | app/api/send-email/route.ts:55 | the digits printed for a count spell that count |
| Email.SendEmail | lib/email.ts:27-36 | success exactly when the library delivered; the message id is passed on; the error is the thrown Error's message, or "Unknown error" for any other thrown value |
| Email.Compose | lib/email.ts:45-138 | the join-button layout is chosen exactly when the link is present and non-blank after trimming; it holds the untrimmed link; otherwise the box holds the untrimmed message, or "undefined" when absent; the greeting falls back to "there" for an empty name |
| Email.RenderedLayout | lib/email.ts:45-155 | title, heading, tagline, body and footer all follow the same branch; the only caller texts in the email are the greeting name and either the untrimmed link or the message |
| Email.InvitationIgnoresCustomMessage | lib/email.ts:107-138 | with a usable link, the custom message has no influence on the email |
| Email.BlankLinkSelectsMessageLayout | lib/email.ts:45 | a non-empty, whitespace-only link selects the message layout |
| SendEmailRoute.EffectiveSubject | app/api/send-email/route.ts:24 | the subject is used when non-empty, untrimmed; otherwise the default subject |
| SendEmailRoute.SuccessCount | app/api/send-email/route.ts:50 | the number of successful entries never exceeds the number of entries |
| SendEmailRoute.SuccessCountExtremes | app/api/send-email/route.ts:50-51 | the count equals the length exactly when every entry succeeded, and is zero exactly when none did |
| SendEmailRoute.Post | app/api/send-email/route.ts:4-68 | the endpoint's response equals `Respond` and its events equal `Trace`, both specifications of the request and the transport |
| SendEmailRoute.Validation | app/api/send-email/route.ts:9-21 | a missing, non-array or empty `emails` is refused first, whatever the link; then a falsy link is refused; a refused request produces no event; only a request passing both checks gets a report |
| SendEmailRoute.ResultsAt | app/api/send-email/route.ts:26-44 | after `n` addresses, entry `i` of the results is the outcome of the `i`-th attempt for `emails[i]` |
| SendEmailRoute.ResultsLength | app/api/send-email/route.ts:39-44 | one entry is pushed per address handled |
| SendEmailRoute.TraceAt | app/api/send-email/route.ts:26-48 | event `2i` is the send of the mail for `emails[i]` and event `2i+1` is a pause |
| SendEmailRoute.TraceLength | app/api/send-email/route.ts:33-47 | each address handled adds exactly one send and one pause |
| SendEmailRoute.OneSendPerAddress | app/api/send-email/route.ts:26-37 | the addresses sent to are the input addresses, in order, duplicates kept |
| SendEmailRoute.ReportCoversEveryAddress | app/api/send-email/route.ts:26-68 | the report has one entry per address in order, and its success is what that address's attempt reported; total, result count, recipient count and address count agree; successful plus failed is total |
| SendEmailRoute.ReportDetails | app/api/send-email/route.ts:53-68 | the message prints the two counts; the details carry the effective subject, the link as received, and the custom message unless it is empty |
| SendEmailRoute.MailForAddress | app/api/send-email/route.ts:27-37 | each mail goes to its own address under the one subject, greeting the text before the first `@`, or "there" when that is empty |
| SendEmailRoute.BatchTrace | app/api/send-email/route.ts:26-48 | an accepted request's events are one send and then one pause per address, in order; the last event is a pause; the addresses sent to are the input list |
| SendEmailRoute.OneFailureInThree | app/api/send-email/route.ts:33-55 | with three addresses where only the second send throws, every address is tried, the failure is recorded with its message and the summary is 3 / 2 / 1 |
| SendEmailRoute.FailureIsIsolated | app/api/send-email/route.ts:26-48 | transports that differ only on attempt `j` give the same results except at `j`: no retry and no abort |
| SendEmailRoute.AllFailedStillSucceeds | app/api/send-email/route.ts:53-61 | after validation, top-level success is true even when every send fails |
| SendEmailRoute.BlankLinkPassesValidation | app/api/send-email/route.ts:16 | a whitespace-only link passes validation, yet every mail gets the message layout |
| WaitlistTable.WithoutIdAppend | components/WaitlistTable.tsx:99 | the filter keeps the surviving entries in their original order |
| WaitlistTable.WithoutIdMembers | components/WaitlistTable.tsx:99 | an entry survives the filter exactly when it was selected and carries another id |
| WaitlistTable.WithoutIdCounts | components/WaitlistTable.tsx:99 | the filter keeps each entry with another id as many times as it occurs, and drops every entry with the id |
| WaitlistTable.WithoutAbsentId | components/WaitlistTable.tsx:99 | filtering an id that no entry carries changes nothing |
| WaitlistTable.HasIdIffMember | components/WaitlistTable.tsx:97 | `some` by id holds exactly when some selected entry carries the id |
| WaitlistTable.ToggleFlipsOnlyThatId | components/WaitlistTable.tsx:96-103 | toggling flips whether the user's id is selected, and so its row highlight; every other id keeps its state |
| WaitlistTable.ToggleSelects | components/WaitlistTable.tsx:100-101 | an unselected user is appended at the end, the rest unchanged and in order |
| WaitlistTable.ToggleDeselects | components/WaitlistTable.tsx:97-99 | toggling a selected id removes every entry with that id and keeps all others, each as often as before |
| WaitlistTable.ToggleTwiceRestores | components/WaitlistTable.tsx:96-103 | toggling the same unselected user twice restores the selection |
| WaitlistTable.ToggleTwiceMovesToEnd | components/WaitlistTable.tsx:96-103 | toggling a selected user twice does not restore the order: `[a, b]` becomes `[b, a]` |
| WaitlistTable.SelectAllFollowsHeader | components/WaitlistTable.tsx:105-151 | a checked header clears the selection and unchecks itself; an unchecked header over a non-empty list selects every row and becomes checked |
| WaitlistTable.SelectAllComparesLengthsOnly | components/WaitlistTable.tsx:106-111 | a selection of another user, of the list's length, shows a checked header and is cleared by select-all although its row is not selected |
| WaitlistTable.SearchRoundTrip | components/WaitlistTable.tsx:38-43 | the endpoint carries the encoded trimmed term exactly when the trimmed term is not blank; a blank term requests the whole list |
| WaitlistTable.SearchIgnoresPadding | components/WaitlistTable.tsx:41-42 | a term and its trim request the same endpoint |
| WaitlistTable.ReplyShapes | components/WaitlistTable.tsx:57-81 | `data.users` wins over `data.data.users`; with neither, the list is empty; a failed reply or a thrown error shows no users |
| WaitlistTable.WaitlistView.constructor | components/WaitlistTable.tsx:27-32 | the table starts empty, with total 0 and loading |
| WaitlistTable.WaitlistView.FetchUsers | components/WaitlistTable.tsx:34-85 | requests the search endpoint, shows the reply's users or none, keeps the total equal to the list's length, and stops loading |
| EmailComposer.DisabledMatchesGuard | components/EmailComposer.tsx:268-270 | the button is disabled exactly while sending or when a click would only alert; a blank link is reported before an empty selection |
| EmailComposer.EmailsInOrder | components/EmailComposer.tsx:44 | the request's addresses are the selected users' addresses, one each, in selection order |
| EmailComposer.ToggleAppendsAddress | components/EmailComposer.tsx:44 | toggling an unselected user on adds that user's address at the end of the next request |
| EmailComposer.ComposerRequestIsAccepted | components/EmailComposer.tsx:51-56 | a body the composer sends passes the endpoint's validation, lists exactly the selected addresses and carries the trimmed link; a non-empty subject is kept |
| EmailComposer.ComposerMailsIgnoreMessage | components/EmailComposer.tsx:54-55 | every mail for a composer request is an invitation holding the trimmed link, and the typed message never affects it |
| EmailComposer.ClickAgainstEndpointSucceeds | components/EmailComposer.tsx:42-66 | a click that passes the guard, answered by the endpoint, completes with a successful report |
| EmailComposer.PreviewShape | components/EmailComposer.tsx:78-128 | the preview is empty exactly when the link is blank; otherwise it greets the first user, holds the trimmed link, and quotes the trimmed message exactly when that is not blank |
| EmailComposer.PreviewNameIsLocalPart | components/EmailComposer.tsx:81 | the preview greets the text before the first `@` of the first selected address, or "there" |
| EmailComposer.PreviewIgnoresPadding | components/EmailComposer.tsx:95-110 | links or messages with equal trims give the same preview; a whitespace-only message previews like an empty one |
| EmailComposer.PreviewMatchesFirstMail | components/EmailComposer.tsx:81-110 | the preview's greeting and link are those the first recipient's mail gets; the preview quotes a message the mail leaves out |
| EmailComposer.Composer.constructor | components/EmailComposer.tsx:23-28 | the form starts with the default subject, no message, no link, not sending |
| EmailComposer.Composer.HandleSend | components/EmailComposer.tsx:31-76 | an alert changes nothing and posts nothing; otherwise exactly the built body is posted; a thrown request gives the fixed failure error; `sending` ends false; the subject is kept; message and link are cleared exactly when the answer reports success |

## Left out

- Nodemailer, SMTP, `process.env` and the transporter's options are left out. They are reduced to how a send settles: the `Transport` oracle.
- The real 100 ms `setTimeout` and the `await` scheduling are left out. The pause is only a trace event.
- JSON parsing, `NextResponse` and HTTP status codes are left out, and so is the catch that answers 500. A request body whose properties are neither strings nor absent nor `null`, or whose `emails` holds non-strings, is not modelled.
- The exact HTML and CSS text of both templates is left out. Each fixed fragment is a named piece, so the proved facts are about which fragment stands where and which caller text is embedded, not about bytes.
- `encodeURIComponent` is a parameter. Fetch and the HTTP reply are a parameter as well.
- The Supabase client, the waitlist and diagnostic endpoints and the page layout are left out. So are the JSX rendering, the icons and the search form's `preventDefault`.
- `fetchUsers` computes a local `total` from `data.total` or `data.data.count` and never uses it. The shown total is always the list's length, and that is what is modelled.
- SendEmailRoute.SendRequest: an explicit `null` custom message is not modelled. The message layout prints it as the text "null"; the model only knows an absent message ("undefined") and a string.
- The unused `isCustomMessage` in lib/email.ts is not modelled.
- The `onSendComplete` and `onUserSelect` callbacks are left out. They become the values returned, the completion and the new selection.
- The console logging and the `previewMode` toggle are left out.
