# MargaDarshi backend core in Dafny

MargaDarshi is a career-guidance backend for students in two districts of
Karnataka. It is written in Express and Mongoose. This project models the
parts of it that hold logic:

- **The AI module** (`backend/ai/gemini.js`, module `Ai` in `ai.dfy`).
  - Each provider adapter reads the provider's text out of the response body.
  - It strips Markdown code fences with the multiline, case-insensitive
    replace of `` ^```json|^```|```$ ``, trims, and calls `JSON.parse`.
  - Any failure becomes `null`.
  - `generateQuiz` and `careerSuggestion` try OpenAI, then Gemini, then
    DeepSeek, and return the first truthy result.
  - The module exports only these two chains.
- **The college search** (`backend/routes/colleges.js`, module `Colleges` in
  `colleges.dfy`).
  - A district allow-list and the directory URL.
  - The program-alias table, `escapeRegex` and the case-insensitive regular
    expression built from it.
  - The order-preserving filter of the fetched list.
- **The user schema** (`backend/models/User.js`, module `UserSchema` in
  `user.dfy`): the user record, its required fields, enumerations, defaults
  and unique email.
- **The account controller** (`backend/controllers/authController.js`,
  module `AuthController` in `auth.dfy`).
  - A `Store` class holds the `User` collection (a map from id to user) and
    the `Otp` collection (a map from email to code and expiry).
  - It has one method per handler: registration, OTP login and
    verification, logout, the dashboard read, admin deletion, profile
    update, and the three AI endpoints.
  - `generateOtp` becomes a function of an integer draw.

`js.dfy` (module `Js`) holds the pieces of JavaScript these modules rely on:
- values as `JSON.parse` returns them;
- truthiness;
- the whitespace `trim` removes (the ECMAScript WhiteSpace and
  LineTerminator sets);
- `toLowerCase`, and the case-insensitive literal search that an escaped
  pattern with the `i` flag performs.

Everything outside the program is a parameter:
- the clock (`now`, in milliseconds);
- the random draw behind an OTP;
- whether the email was sent;
- the provider replies, as an oracle `net` from provider and prompt to reply;
- `JSON.parse`, as an abstract partial function `parse`;
- the fetched college list, as an oracle `fetch` from URL to result;
- the results of the AI calls the controller makes.

## Model

| member | source | states |
|---|---|---|
| Js.TrimStart | backend/ai/gemini.js:22 | the text left after the leading whitespace is no longer than the input and does not begin with whitespace |
| Js.TrimStartSplits | backend/ai/gemini.js:22 | what is dropped at the front is all whitespace, and what is kept is the rest of the input |
| Js.TrimEnd | backend/ai/gemini.js:22 | the text left before the trailing whitespace is no longer than the input and does not end with whitespace |
| Js.TrimEndSplits | backend/ai/gemini.js:22 | what is dropped at the back is all whitespace, and what is kept is the start of the input |
| Js.Trim | backend/ai/gemini.js:22 | the trimmed text neither begins nor ends with whitespace; it is empty exactly when the input is all whitespace |
| Js.TrimIgnoresPadding | backend/routes/colleges.js:46 | whitespace added on either side of a text does not change what `trim` returns |
| Js.Lower | backend/routes/colleges.js:46 | `toLowerCase` keeps the length and lowers each character on its own (ASCII letters) |
| Js.ContainsIgnoringCase | backend/routes/colleges.js:57-60 | true exactly when some position of the text starts with the literal, letters compared regardless of case |
| Ai.ReplyText | backend/ai/gemini.js:21 | the adapter has text exactly when the provider's path leads to a string: `choices[0].message.content`, or `candidates[0].content.parts[0].text` for Gemini (line 68); the text it yields is that string; `[0]` reads an array element, an object's `"0"` key or a string's first character |
| Ai.ObjectIndexedByZero | backend/ai/gemini.js:21 | for any content string, `choices` given as an object with a `"0"` key still yields that message content, as JavaScript's `[0]` does |
| Ai.StripFences | backend/ai/gemini.js:22 | the text handed to `JSON.parse` never begins or ends with whitespace |
| Ai.RemoveFencesKeepsPlainText | backend/ai/gemini.js:22 | the fence replace copies any stretch without backticks unchanged |
| Ai.StripFencesOfPlainText | backend/ai/gemini.js:22 | on text without backticks, fence stripping is just `trim` |
| Ai.FencedPayloadStripsToPayload | backend/ai/gemini.js:22 | a payload without backticks, put between an opening fence (three backticks, optionally followed by `json` in any letter case) and line break and a closing fence, strips to what the bare payload strips to |
| Ai.Decode | backend/ai/gemini.js:22-23 | a successful `JSON.parse` of the stripped text is the result; a parse failure gives null; a non-null result is always such a parse |
| Ai.DecodeIgnoresFences | backend/ai/gemini.js:22-23 | fencing a payload does not change the value the adapter returns |
| Ai.Adapter | backend/ai/gemini.js:10-28 | a rejected request or missing text gives null; an answered request with text gives the parse of the stripped text, or null when the parse fails; the adapter never throws |
| Ai.FallbackCases | backend/ai/gemini.js:77-87 | OpenAI truthy: its result, only OpenAI called; else Gemini truthy: Gemini's result, two calls; else DeepSeek's result unchanged (null too), all three called |
| Ai.FallbackOutcomeIsUnique | backend/ai/gemini.js:77-87 | the chain's specification fixes both the result and the calls made |
| Ai.CallCounts | backend/ai/gemini.js:77-87 | each provider is called at most once, OpenAI first, and a later provider only after the earlier ones |
| Ai.GenerateQuiz | backend/ai/gemini.js:77-87 | the quiz chain meets the "first truthy result wins" specification in the order OpenAI, Gemini, DeepSeek |
| Ai.CareerSuggestion | backend/ai/gemini.js:150-160 | the suggestion chain meets the same specification |
| Ai.ExportsAreTheChains | backend/ai/gemini.js:162-165 | `geminiGenerateQuiz` is bound to the quiz chain, `geminiCareerSuggestion` to the suggestion chain, and nothing else is exported |
| Colleges.Utf8 | backend/routes/colleges.js:38 | a character is one to four UTF-8 bytes, each below 256, and one byte exactly for ASCII; what the bytes mean is `Colleges.Utf8Decodes` |
| Colleges.Utf8Decodes | backend/routes/colleges.js:38 | the bytes `encodeURIComponent` writes for a character are well-formed UTF-8 in its shortest form (the lead byte announces the length, the rest are continuation bytes, no overlong sequence) and decode back to its code point |
| Colleges.HexDigitIsUpperHex | backend/routes/colleges.js:38 | a digit is written in the upper-case hexadecimal alphabet `0123456789ABCDEF` |
| Colleges.PercentBytes | backend/routes/colleges.js:38 | three characters per byte, each of them `%` or an unreserved character; which characters is `Colleges.PercentBytesSpells` |
| Colleges.PercentBytesSpells | backend/routes/colleges.js:38 | byte `i` is written at positions `3i`..`3i+2` as `%`, its high hexadecimal digit and its low one |
| Colleges.EncodeUriComponent | backend/routes/colleges.js:38 | the encoding is never shorter than its input and contains only unreserved characters and `%` |
| Colleges.EncodeUriComponentChar | backend/routes/colleges.js:38 | an unreserved character stays itself, any other becomes the percent-encoding of its UTF-8 bytes |
| Colleges.EncodeUriComponentAppend | backend/routes/colleges.js:38 | the encoding works character by character: it distributes over concatenation |
| Colleges.EncodeUriComponentIdentity | backend/routes/colleges.js:38 | `encodeURIComponent` leaves a string unchanged exactly when all its characters are unreserved |
| Colleges.AllowedDistrictsNeedNoEncoding | backend/routes/colleges.js:36-39 | `encodeURIComponent` leaves both allowed district names unchanged |
| Colleges.QueryUrl | backend/routes/colleges.js:36-39 | no district gives `BASE_URL`; an allowed district gives `BASE_URL?district=` followed by its encoding, which is the name itself |
| Colleges.EscapeRegexLength | backend/routes/colleges.js:22-24 | output length is input length plus the number of syntax characters |
| Colleges.EscapeRegexIsLiteral | backend/routes/colleges.js:22-24 | the escaped text, read as a pattern, matches exactly the original text as a literal: each syntax character is escaped and nothing else changes |
| Colleges.EscapeRegexAppend | backend/routes/colleges.js:22-24 | escaping works character by character (it distributes over concatenation) |
| Colleges.AliasValuesAreTruthy | backend/routes/colleges.js:10-19 | every alias value is a non-empty string, so the fallback to the term itself happens only for terms that are not keys |
| Colleges.EffectiveTerm | backend/routes/colleges.js:46-50 | the alias value when the lowered, trimmed term is an alias key, otherwise that term |
| Colleges.EffectiveTermIgnoresPadding | backend/routes/colleges.js:46-50 | surrounding whitespace in the query does not change the term searched for |
| Colleges.EffectiveTermIgnoresCase | backend/routes/colleges.js:46-50 | the letter case of the query does not change the term searched for |
| Colleges.FilterColleges | backend/routes/colleges.js:53-61 | a college is kept exactly when it has a programs array with an entry containing the term, case-insensitively; each kept college appears as many times as in the input; the result is a subsequence of the input |
| Colleges.FilterAppend | backend/routes/colleges.js:59-61 | the filter distributes over concatenation, so it never reorders |
| Colleges.ListColleges | backend/routes/colleges.js:27-70 | a non-empty district outside the allow-list is a 400 and is the only 400; a failed fetch is the only 500; without a program term or with an empty list the fetched list comes back unchanged; otherwise exactly the colleges offering the effective term, in order and with their duplicates |
| UserSchema.NewUser | backend/models/User.js:4-15 | `state` defaults to Karnataka, `isLoggedIn` to false, `createdAt` to now; with the required fields present, the record is valid exactly when qualification, district and gender lie in their enumerations |
| UserSchema.SameEmailsPreserve | backend/models/User.js:13 | updates that keep every user's email keep the unique index satisfied and every email registered |
| Js.DecimalDigits | backend/controllers/authController.js:123 | `toString` of a non-negative integer: digits without a leading zero that spell the number |
| AuthController.OtpCode | backend/controllers/authController.js:122-124 | the code is six digits, the first not zero, spelling 100000 plus the draw |
| AuthController.BuildUpdate | backend/controllers/authController.js:103-113 | the update carries `age` and `academic_interests` when defined, and each other field only when non-empty |
| AuthController.BuiltUpdateUpdatesProfile | backend/controllers/authController.js:103-114 | applying that update changes the listed fields as promised (`age` 0 included) and leaves email, creation time and login flag alone |
| AuthController.Store.FindByEmail | backend/controllers/authController.js:159-160 | finds the user with that email, or none exactly when no user has it |
| AuthController.Store.IssueOtp | backend/controllers/authController.js:166-172 | upserts the email's single OTP with expiry now + 300000 ms; other emails' entries and the users are untouched |
| AuthController.Store.Register | backend/controllers/authController.js:150-178 | 400 when a required field is missing or a 12th-pass student has no specialization, 409 for a known email, all with nothing stored; 500 with nothing stored when the schema rejects the record; otherwise the user is stored under a new id and an OTP issued, then 200, or 500 if the mail fails |
| AuthController.Store.Login | backend/controllers/authController.js:180-200 | 400 without an email and 404 for an unknown one, issuing no OTP; otherwise an OTP is upserted, then 200, or 500 if the mail fails |
| AuthController.Store.VerifyOtp | backend/controllers/authController.js:203-235 | a missing or different code is "Invalid OTP", checked before expiry; a code with `expiresAt < now` is "OTP expired"; neither touches the stored OTP; a valid code is deleted and logs the user in; with every OTP owned by a user the 404 cannot happen |
| AuthController.Store.Logout | backend/controllers/authController.js:237-245 | clears the user's login flag, if the user exists, and nothing else |
| AuthController.Store.Dashboard | backend/controllers/authController.js:247-254 | answers 200 with the authenticated user's stored record, or `null` exactly when no record has that id; the store is unchanged |
| AuthController.Store.AdminDeleteUser | backend/controllers/authController.js:78-96 | 400 without both fields, 403 unless the password equals the configured one, 404 for an unknown email with the OTP kept; otherwise the user and the email's OTP are deleted |
| AuthController.Store.UpdateProfile | backend/controllers/authController.js:99-119 | 401 without a user id; otherwise the user's listed fields are updated as promised, no other user or OTP changes, and the invariants hold without re-running the enum validators |
| AuthController.Store.GetQuiz | backend/controllers/authController.js:10-25 | 401 without a user id, 404 for an unknown user; otherwise the quiz chain's outcome, 503 when it is falsy |
| AuthController.Store.SubmitQuiz | backend/controllers/authController.js:28-49 | 401 without a user id, 400 unless `answers` is an array, both with nothing stored; otherwise the answers are saved before the AI call; 503 for a falsy AI result, 500 when the call throws |
| AuthController.Store.GetCareerDetails | backend/controllers/authController.js:52-72 | 401, 404, then 400 without `career_title`; 503 for a falsy AI result, 500 when the call throws |
| AuthController.OtpIsSingleUse | backend/controllers/authController.js:208-216 | after a registration, the first verification with the issued code succeeds and a second one with the same code is "Invalid OTP" |
| AuthController.DashboardFollowsLogin | backend/controllers/authController.js:203-254 | after a registration and a successful verification the dashboard shows the user logged in, and after logout the same record with only the login flag cleared |

## Left out

- Prompt wording: the prompts are the `Prompt` datatype; their text has no logic.
- `JSON.parse` is an abstract partial function `parse`; no JSON parser is written. A parsed number is the real it denotes; numbers beyond double range (`1e400` parsing to `Infinity`) and rounding to the nearest double are not modelled.
- The HTTP calls (axios to the providers and to the college directory) are oracles; the `GET /colleges/:collegeId` route is pure forwarding and is not modelled.
- JWT signing and the token in the `verifyOtp` response are not modelled; the authenticated user id is a parameter.
- Sending the OTP email (nodemailer) is reduced to a flag saying whether it succeeded.
- Logging, error texts passed through in `error: err.message`, and response bodies other than the status and `message` are not modelled.
- Database failures other than those the model names (a schema rejection on save, a cast error on the answers update) are not modelled.
- Express routing, middleware and server setup have no logic and are not modelled.
- `quizData.js`, `courseMap.js` and `huggingface.js` are not part of this model.
- Requests run one at a time; `async`/`await` has no interleaving to model.
- Js.Lower: `toLowerCase` and the `i` regex flag fold ASCII letters only, not Unicode case.
- Colleges.EffectiveTerm: looks up the alias table's own keys only; prototype keys such as `constructor` are not modelled.
- Colleges.ListColleges: the query values are strings; array-valued query parameters are not modelled.
- Colleges.ListColleges: a directory answer that is not an array of records is not modelled.
- Colleges.FilterColleges: only string entries of a college's `programs` array are modelled; `regex.test` converts any other entry (a number, `null`, a nested array) to its string form first, so such an entry can match too, and the model cannot represent it.
- AuthController.Store.Dashboard: the `select('-__v')` projection is not modelled, because the modelled user record has no version key.
- Colleges.EncodeUriComponent: the lone-surrogate `URIError` is not modelled, because a character here is a Unicode scalar value, never a lone surrogate.
- UserSchema.NewUser: `dob` stays the client's string and `age` an integer; Mongoose's casts to `Date` and `Number` are not modelled.
- AuthController.OtpCode: `Math.random` is an integer draw in [0, 900000); floating point is not modelled.
- AuthController.Store.SubmitQuiz: Mongoose's cast of the answers is a parameter (`None` for a cast error); the AI result is an oracle value.
- AuthController.Store.GetCareerDetails: the AI result is an oracle value.
- AuthController.Store: the body fields of every handler (`Register`, `Login`, `VerifyOtp`, `AdminDeleteUser`, `UpdateProfile`) are strings, with an integer `age` and a string array in `UpdateProfile`; a number, an operator object, `null` or any otherwise typed value in a body (a numeric `otp` failing `!==`, an object `email` reaching `findOne` as a query) is not modelled.
- The controller imports `getCareerTitles` and `getCareerDetails`, which `backend/ai/gemini.js:162-165` does not export (`Ai.ExportsAreTheChains`). As written, both calls throw and lead to a 500. The model keeps the AI result abstract, and `None` stands for that throw.
- The code has none of the following, so neither does the model:
  - adapters do no shape validation of the parsed payload;
  - provider calls have no timeout;
  - a missing API key does not skip the provider.
