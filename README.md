# Waitlist landing page: signup flow and typewriter, in Dafny

This project models the logic under a marketing landing page that collects email
addresses for a waitlist. Three pieces are modelled:

- **The `POST /api/waitlist` endpoint** (`app/api/waitlist/route.ts`). It checks the
  body's `email` field and applies the shape rule `^[^\s@]+@[^\s@]+\.[^\s@]+$`. It
  lower-cases the address and looks it up in the `waitlist` table. It answers 409 if the
  address is there. Otherwise it inserts the address and answers 201 with the new row's id.
  Any thrown error becomes a generic 500.
  - `email.dfy` holds the shape rule as a check (`ValidEmail`) and as what the regular
    expression means (`MatchesEmailPattern`). It also holds the lower-casing.
  - `store.dfy` holds the table: a class whose `rows` map each stored email to its
    entry. `FindUnique` and `Create` stand for the two database calls.
  - `waitlist_route.dfy` holds the handler `Post`. It is proved against two
    functions: `Classify` (which way out of the handler a request takes) and `Render`
    (the status and JSON body of each way out).
- **The signup form** (`app/page.tsx`). Its four state fields are `email`, `loading`,
  `message` and `error`. They live in the class `SignupForm`. Its methods mirror the
  input's `onChange` and the two halves of `handleSubmit`: before the `fetch`, and from
  the settled request through `finally`. The pure functions `Typed`, `Begin` and `Settle`
  specify the methods. Lemmas connect the form to the endpoint.
- **The typewriter** (`components/ui/typewriter-effect.tsx`). Its state is
  `currentWordIndex`, `currentText`, `isDeleting` and `isWaiting`. Each run of its effect
  changes that state by one step; here one step is one `Tick` of the class
  `TypewriterEffect`. The function `Next` specifies `Tick`. Lemmas show that the
  invariant holds and that each word is typed out, shown, deleted, and followed by the
  next word.

Things the code leaves to its environment are parameters:

- the decoded request body (`Payload`);
- whether the database can be reached during a request (`Outage`);
- the creation time (`now`);
- how the browser's request settles (`FetchOutcome`).

The model follows the code as written:

- The 409 message is the literal `Looks like u have already registerd!`, with the typo
  as the code writes it.
- A unique-constraint violation raised by the insert falls into the handler's `catch`
  and answers 500, not 409. In the sequential model the insert only runs after the
  lookup found nothing, so this cannot happen in `Post`. `Create` still models the
  constraint.
- `handleSubmit` has no `loading` guard of its own. Re-entry is prevented only because
  the input and the button are disabled while `loading` is true. The model makes
  `!loading` a precondition of the form's methods.

The server's `\s` is modelled exactly: it is the ECMAScript WhiteSpace and
LineTerminator code points. Lower-casing covers ASCII letters only (see below). The
client's `validateEmail` uses the same pattern as the server, so both sides use the
one predicate `Email.ValidEmail`.

## Model

| member | source | states |
|---|---|---|
| `Email.ValidEmail` | app/api/waitlist/route.ts:17-19 | The shape rule as a check, shared by the endpoint and the form's `validateEmail` (app/page.tsx:45-49). Its own contract says only that an accepted string holds an `@` and a `.` and is at least 5 characters long. `Email.ValidEmailMatchesPattern` gives its full meaning, with `\s` as `Email.IsWhitespace`. |
| `Email.ValidEmailMatchesPattern` | app/api/waitlist/route.ts:17-19 | The check accepts a string exactly when the regular expression matches it: one `@`, no whitespace, a non-empty local part, and a domain with a `.` that is neither its first nor its last character. |
| `Email.ValidEmailSplits` | app/api/waitlist/route.ts:18 | A string that passes the check splits as `A@B.C` with three non-empty runs of `[^\s@]`. |
| `Email.SplitIsValidEmail` | app/api/waitlist/route.ts:18 | Every split `A@B.C` into non-empty runs of `[^\s@]` passes the check, and its `@` is the first one. |
| `Email.MissingAtOrDotRejected` | app/api/waitlist/route.ts:18-24 | A string with no `@`, or with no `.` anywhere after its first `@`, fails the shape rule. |
| `Email.IndexOf` | app/api/waitlist/route.ts:18 | The position found holds the character, and no earlier position does; it is the length when the character is absent. |
| `Email.Lower` | app/api/waitlist/route.ts:28 | Lower-casing keeps the length, maps each character by itself, and leaves no upper-case ASCII letter. |
| `Email.LowerOfLower` | app/api/waitlist/route.ts:28-41 | A string with no upper-case letter, such as a stored key, is unchanged by lower-casing. |
| `Email.LowerKeepsShape` | app/api/waitlist/route.ts:18-28 | A string passes the shape rule exactly when its lower-cased form does. |
| `Email.LowerSplitsAt` | app/api/waitlist/route.ts:28 | Lower-casing keeps every `@`, `.` and `[^\s@]` character where it was. |
| `Store.WaitlistTable.FindUnique` | app/api/waitlist/route.ts:27-29 | The lookup finds the row stored under exactly that key, or none; it fails when the database cannot be reached. |
| `Store.WaitlistTable.Create` | app/api/waitlist/route.ts:39-43 | The insert adds exactly one row, under the given key, with a fresh id. It writes nothing when the database is unreachable or the key is taken. |
| `WaitlistRoute.Classify` | app/api/waitlist/route.ts:9-43 | A missing, empty or non-string `email` is `EmailRequired`, and a string failing the shape rule is `InvalidFormat`, in both directions. The outcome is `Failed` exactly when the body cannot be decoded, or a well-shaped address meets a failing lookup, or is absent and meets a failing insert. The outcome is a creation exactly when a well-shaped address is absent from a healthy store; it adds the lower-cased address, which is lower-case and well-shaped. |
| `WaitlistRoute.Admission` | app/api/waitlist/route.ts:26-43 | The outcome is 409 exactly when the lower-cased key is stored and the lookup succeeds. It is a creation exactly when the key is absent and both store calls succeed. It fails exactly when the lookup throws, or the key is absent and the insert throws. |
| `WaitlistRoute.Render` | app/api/waitlist/route.ts:10-58 | Only a creation answers 201, with the success message and the new id. A missing email answers 400 "Email is required", a malformed one 400 "Invalid email format", and a duplicate 409 with its message; no other outcome is 4xx. A failure is 500 with the one generic message and no detail. |
| `WaitlistRoute.Post` | app/api/waitlist/route.ts:5-60 | The handler answers as `Render(Classify(...))` says. Every answer but 201 leaves the table unchanged. A 201 adds exactly the lower-cased address with the id it returns. Every stored key stays lower-case and well-shaped. |
| `WaitlistRoute.Admit` | app/api/waitlist/route.ts:26-51 | The lookup-then-insert step answers as `Render(Admission(...))` says, and writes the table only on a 201. |
| `WaitlistRoute.FieldErrorsAnswer400` | app/api/waitlist/route.ts:9-24 | A body whose `email` is missing, empty or not a string gets 400 "Email is required", and one failing the shape rule gets 400 "Invalid email format", whatever the store holds. |
| `WaitlistRoute.RegisteredGrows` | app/api/waitlist/route.ts:39-43 | Adding a lower-case, well-shaped key keeps every stored key lower-case and well-shaped. |
| `WaitlistRoute.RegisteredDistinctUpToCase` | app/api/waitlist/route.ts:27-43 | Two stored keys that lower-case alike are the same key, so the table never holds two case variants of one address. |
| `WaitlistRoute.ClassifyIgnoresCase` | app/api/waitlist/route.ts:27-31 | Two addresses that lower-case alike get the same outcome against the same store. |
| `WaitlistRoute.RepeatIsAlreadyRegistered` | app/api/waitlist/route.ts:27-43 | After a creation for `s`, any case variant of `s` is answered 409 with the exact duplicate message, unless the lookup fails. |
| `WaitlistRoute.ValidationIsStoreIndependent` | app/api/waitlist/route.ts:9-24 | The 400 answers depend on the body alone, not on the store or an outage. |
| `SignupPage.Typed` | app/page.tsx:148-152 | Editing the input sets `email` and leaves no error shown. `message` is untouched and `loading` stays false. |
| `SignupPage.Begin` | app/page.tsx:51-73 | A request is made exactly when the email passes the shape rule. An empty email shows "Please enter your email address" and a malformed one shows the guidance message; in both cases nothing else changes. A request sets `loading` and clears `message` and `error`. |
| `SignupPage.ShownError` | app/page.tsx:78 | The body's `error` is shown when it is a non-empty string, otherwise "Something went wrong"; it is never empty. |
| `SignupPage.Settle` | app/page.tsx:75-89 | `loading` always ends false. An ok response shows the thanks message and clears `email`. A non-ok response shows the body's error and keeps `email`. A throw shows "Failed to join waitlist. Please try again.". |
| `SignupPage.Observe` | app/page.tsx:67-78 | The browser sees `ok` exactly for a 2xx status, and an `error` field exactly for an error body, holding that body's text. |
| `SignupPage.SignupForm.constructor` | app/page.tsx:10-13 | The form starts with empty fields, `loading` false and no celebration. |
| `SignupPage.SignupForm.OnInput` | app/page.tsx:148-152 | The `onChange` handler changes the fields as `Typed` says and keeps the form consistent. |
| `SignupPage.SignupForm.BeginSubmit` | app/page.tsx:51-73 | The first half of `handleSubmit` changes the fields and makes the request as `Begin` says. |
| `SignupPage.SignupForm.FinishSubmit` | app/page.tsx:75-89 | The second half changes the fields as `Settle` says, and celebrates exactly on an ok response. |
| `SignupPage.SignupForm.HandleSubmit` | app/page.tsx:51-90 | A whole submission makes a request exactly for a well-shaped email and leaves the fields as `Begin` and then `Settle` say. It always ends with `loading` false, and celebrates once exactly when a request was made and answered ok. |
| `SignupPage.ClientAgreesWithServer` | app/page.tsx:45-60 | The form sends a request exactly when the endpoint's own checks would not answer 400. |
| `SignupPage.DuplicateShownToUser` | app/page.tsx:77-78 | Submitting an address already stored, in any case, shows the endpoint's 409 message and keeps the input. |
| `SignupPage.JoinShownToUser` | app/page.tsx:79-84 | Submitting a new address to a healthy store shows the thanks message, clears the input and celebrates. |
| `Typewriter.Next` | components/ui/typewriter-effect.tsx:22-54 | One step keeps the index in range, the text a prefix of the current word, and the two flags apart. Waiting turns into deleting. Typing appends one character, or starts waiting once the word is complete. Deleting removes one character. Once the text is empty, deleting stops and the index moves to the next word modulo the word count; that is the only step that changes the index. |
| `Typewriter.Run` | components/ui/typewriter-effect.tsx:22-54 | The invariant holds after any number of steps. |
| `Typewriter.RunAdds` | components/ui/typewriter-effect.tsx:22-54 | Running `a` steps and then `b` steps is running `a + b` steps. |
| `Typewriter.TypesOut` | components/ui/typewriter-effect.tsx:44-53 | Typing from any prefix reaches the whole word, one character per step. |
| `Typewriter.ErasesOut` | components/ui/typewriter-effect.tsx:34-43 | Deleting from any prefix reaches the empty text, one character per step. |
| `Typewriter.WordCycle` | components/ui/typewriter-effect.tsx:22-54 | From the empty text of word `i`, exactly twice the word length plus 3 steps type the word, wait, delete it, and reach the empty text of the next word. |
| `Typewriter.TypewriterEffect.constructor` | components/ui/typewriter-effect.tsx:17-20 | The effect starts at word 0 with empty text and both flags clear; it requires at least one word. |
| `Typewriter.TypewriterEffect.Tick` | components/ui/typewriter-effect.tsx:22-54 | One run of the effect changes the four fields as `Next` says and keeps the invariant. |

## Left out

- `Email.Lower`: only ASCII letters are lower-cased, and a character always maps to one character. JavaScript's `toLowerCase` covers all of Unicode and can change the length (`İ` becomes two code points).
- Strings are sequences of Unicode scalar values, while JavaScript strings are UTF-16 code units. The shape rule accepts the same strings either way. The typewriter, however, types a character outside the Basic Multilingual Plane in one step, where the source takes two.
- Concurrency: two requests racing between `findUnique` and `create` are not modelled. Requests run one after the other. An insert-time unique violation would answer 500 (see `Store.WaitlistTable.Create`).
- The id format and the clock of the database are not modelled: ids come from a counter in the table, and `createdAt` is a parameter.
- `console.error` logging in the handler's `catch` is not modelled.
- JSON decoding and `fetch` are abstracted. The request body is a `Payload`, and the browser's result is a `FetchOutcome`. A non-string `error` field in a response body is not modelled.
- `triggerConfetti` (its timing, `requestAnimationFrame` and drawing) is reduced to a counter of celebrations.
- The JSX of the page and the typewriter's animated cursor are rendering only.
- `components/ui/wavy-background.tsx`, `components/ui/highlighter.tsx` and `app/layout.tsx` are rendering or configuration with no logic to model.
- The typewriter's timer delays (2000 ms and 40 ms) and the cancelling of a pending timer when the effect re-runs are not modelled. Each state change is one step.
- The `words` list is fixed for the life of a typewriter. A change of the `words` prop, and each word's `className`, are not modelled.
- `onKeyDown` (Enter submits) is not a separate operation: it calls `handleSubmit` like the button does, and the disabled input keeps it from firing while `loading`.
