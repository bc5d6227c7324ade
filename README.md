# Contact-form handler of a portfolio site, modelled in Dafny

The site's only server logic is the handler of `POST /api/send-email`
(`app/api/send-email/route.ts`). It reads a JSON body with four properties:
`name`, `email`, `subject` and `message`. It answers in one of three ways:

- 400 `{ error: "All fields are required" }` when a field is falsy;
- 400 `{ error: "Invalid email format" }` when the address fails
  `/^[^\s@]+@[^\s@]+\.[^\s@]+$/`;
- 200 `{ success: true, message: "Email sent successfully!" }` otherwise.

Any exception, such as a body that does not parse or is `null`, gives
500 `{ error: "Failed to send email" }`. On the success path the handler also
composes a text from the four fields and logs it. No other state exists.

The handler has no loops and changes no state, so the model is pure functions:

- `payload.dfy`, module `Payload`: how the body looks after `request.json()`
  and destructuring. A body is `Unparseable`, `JsonNull`, or `JsonValue` with
  four `Option<string>` fields. `None` stands for every falsy value other than
  the empty string: `undefined`, and a JSON `null`, `false` or `0`. `Truthy` gives
  JavaScript truthiness for such a field: present and non-empty, with no
  trimming. `AllPresent` is the negation of the guard on line 8.
- `email_pattern.dfy`, module `EmailPattern`:
  - `IsWhitespace` is the ECMA-262 `\s` class: the WhiteSpace code points of
    section 12.2 plus the LineTerminator code points of section 12.3.
  - `Matches` is the regular expression itself. Because of the anchors and
    backtracking, it holds exactly when the string splits as
    `local "@" d1 "." d2` with three non-empty runs of `[^\s@]`.
  - `PlainShape` restates the pattern without regex terms: no whitespace,
    one `@`, something before it, and a `.` strictly inside the part after it.
  - `Characterisation` proves `Matches` and `PlainShape` are equivalent.
- `send_email.dfy`, module `SendEmail`:
  - `Post` maps each body to an `Outcome`: `Rejected(400, reason)`,
    `Accepted(200, true, message)` or `Failed(500, error)`. It checks the
    required fields before the address.
  - `EmailContent` is the template literal, written out character for
    character.
  - The remaining members are lemmas for the handler's rules and some worked
    examples.

One might expect the fields to be checked after trimming; the handler trims
nothing, so a field of blanks counts as present
(`OnlyPresenceMatters`, `BlankFieldsAccepted`).

## Model

| member | source | states |
|---|---|---|
| `Payload.Truthy` | app/api/send-email/route.ts:8 | JavaScript truthiness of a field: falsy exactly for a missing/falsy value and the empty string, with no trimming, so a single blank is truthy |
| `Payload.AllPresent` | app/api/send-email/route.ts:8 | the negation of the required-field guard: no field is missing and none is the empty string; when it holds the address is a non-empty string |
| `EmailPattern.IsWhitespace` | app/api/send-email/route.ts:13 | the ECMA-262 `\s` class: TAB, VT, FF, ZWNBSP, the Space_Separator code points, LF, CR, LS and PS; space, tab, LF and CR are in it, ASCII letters, digits, `@` and `.` are not |
| `EmailPattern.Matches` | app/api/send-email/route.ts:13-14 | `emailRegex.test(email)`: holds exactly when the string splits as local `@` d1 `.` d2 into three non-empty runs of `[^\s@]`; an accepted string has at least five characters, contains `@` and `.`, and neither starts nor ends with `@` |
| `SendEmail.EmailContent` | app/api/send-email/route.ts:19-31 | the template literal, character for character; its length is 169 plus the four field lengths and it opens with a line break, six spaces and the header |
| `Payload.AllPresentIffEveryField` | app/api/send-email/route.ts:8 | the guard passes exactly when each of the four fields, taken in turn, is truthy |
| `EmailPattern.MatchesHasPlainShape` | app/api/send-email/route.ts:13 | a string the pattern accepts has no whitespace, exactly one `@` with a non-empty part before it, and a `.` inside the part after it |
| `EmailPattern.PlainShapeMatches` | app/api/send-email/route.ts:13 | every string of that plain shape is accepted by the pattern (it exhibits the split) |
| `EmailPattern.Characterisation` | app/api/send-email/route.ts:13 | the pattern accepts a string if and only if the string has the plain shape |
| `SendEmail.Post` | app/api/send-email/route.ts:3-57 | every body gets exactly one of three answers: 400 with one of the two rejection texts, 200 with `success` true and "Email sent successfully!", or 500 with "Failed to send email" |
| `SendEmail.RequiredFieldsRule` | app/api/send-email/route.ts:8-10 | the answer is 400 "All fields are required" if and only if some field is missing or empty |
| `SendEmail.AnyMissingFieldRejected` | app/api/send-email/route.ts:8-10 | whichever of the four fields is missing or empty, the answer is the same 400 "All fields are required" |
| `SendEmail.InvalidEmailRule` | app/api/send-email/route.ts:8-16 | the answer is 400 "Invalid email format" if and only if all fields are present and the address fails the pattern, so a missing field takes precedence |
| `SendEmail.AcceptedRule` | app/api/send-email/route.ts:8-52 | a body is accepted if and only if it parsed to a value with all four fields present and an address of the plain shape |
| `SendEmail.FailureRule` | app/api/send-email/route.ts:4-56 | the answer is 500 "Failed to send email" if and only if the body did not parse or parsed to `null` |
| `SendEmail.AcceptedEchoesNothing` | app/api/send-email/route.ts:46-52 | any two accepted bodies get the identical response, so no field value is echoed |
| `SendEmail.OnlyPresenceMatters` | app/api/send-email/route.ts:8 | name, subject and message affect the answer only through being present and non-empty, so nothing is trimmed |
| `SendEmail.WhitespaceEmailRejected` | app/api/send-email/route.ts:8-16 | with all fields present, an address containing whitespace anywhere is answered 400 "Invalid email format" |
| `SendEmail.ContentLayout` | app/api/send-email/route.ts:19-31 | the composed text begins with a line break and six spaces, then the "New Contact Form Submission" header, and closes with the "Sent from Portfolio Website" footer, followed only by a line break and four spaces. Between them are name, email, subject and message, in that order, at offsets fixed by the lengths of the earlier fields, and the length is 169 plus the field lengths |
| `SendEmail.ExampleAccepted` | app/api/send-email/route.ts:8-52 | the submission Ann / ann@example.com / Hi / Hello there is answered 200 "Email sent successfully!" |
| `SendEmail.BlankFieldsAccepted` | app/api/send-email/route.ts:8-52 | a submission whose name, subject and message are only spaces is still accepted |
| `SendEmail.ExampleNoDotRejected` | app/api/send-email/route.ts:13-16 | the address "ann@example" is answered 400 "Invalid email format" |
| `SendEmail.ExampleMissingBeforeMalformed` | app/api/send-email/route.ts:8-16 | without a name, even a malformed address is answered "All fields are required" |

## Left out

- Logging (`console.log`, `console.error`, lines 40-41 and 54) is left out. It is output only and does not affect the response. `EmailContent` models the text that would be logged, and `Post` does not return it.
- The 1000 ms simulated delay (line 44) is timing only. The outcome is the same with or without it.
- `request.json()` and `NextResponse.json()` are taken as given. The model starts from a body already classified as unparseable, `null`, or a value with four optional fields, and returns a status plus response properties, not an HTTP object.
- Truthy JSON values that are not strings (`true`, non-zero numbers, arrays, objects) in the four fields are not modelled; falsy ones (`null`, `false`, `0`) are answered "All fields are required" before anything else reads the field, which `None` models exactly. The truthiness of those truthy values and their conversion to strings fall outside the model: `regex.test` converts the email, and the template literal (lines 22-27) converts name, email, subject and message. An object such as `{"toString": 1}` makes either conversion throw, and the source then answers 500; so the "only if" half of `FailureRule` holds for string fields only.
- Dafny characters are Unicode scalar values. The pattern has no `u` flag, so the engine works on UTF-16 code units, and a lone surrogate in a JSON string cannot be represented here.
- The modelled core's behaviour does not depend on the React components (`app/page.tsx`, `app/layout.tsx`, `components/sections/*.tsx`), so they are not modelled. This includes the client-side submit flow, which only wraps `fetch` and updates UI state.
