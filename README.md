# Webmaster form relay — a Dafny model

The system is a small web site with a price-calculator form. The browser
collects the visitor's name, email, phone and message. It posts them as JSON
to a Flask endpoint, `POST /api/submit-form`. The endpoint trims and checks
the three required fields. It writes one `users` row and one linked
`form_submissions` row to PostgreSQL and commits both at once. Then it sends
an HTML notification to a Telegram chat. An admin endpoint, `GET /api/users`,
lists every user joined with their submissions, newest user first. The
browser script also has two helpers: one formats phone numbers and one
checks email addresses.

The model has five modules:

- `Wrappers` — `Option` and `Result`.
- `Text` — the string built-ins the code relies on:
  - Python's `str.strip()`, with the exact set of characters `str.isspace()` accepts;
  - Python's `str.title()`, with ASCII letters as the cased characters;
  - JavaScript's `\s` and `\d` classes.
- `Pipeline` — the pure steps of `submit_form`:
  - the request body as a datatype (absent, string, null or other value per key);
  - trimming, defaults and the required-field check (`Parse`);
  - the four fixed responses;
  - the notification's labelled fields;
  - the guard and result of `send_telegram_message`.
- `Backend` — the database side:
  - column semantics: `VARCHAR(n)` widths, NOT NULL on `form_type`, the NUL-character refusal of the driver;
  - the `Store` class: the two tables as sequences plus the two SERIAL counters;
  - `Store.SubmitForm`, which performs the two INSERTs and the commit step by step;
  - the listing query, a LEFT JOIN followed by a stable newest-first sort;
  - lemmas about the join.
- `Frontend` — the browser side:
  - `Utils.formatPhoneNumber`;
  - `Utils.validateEmail`, proved equal to the regular expression it uses;
  - the JSON payload `{...data, form_type: 'price_calculator'}`.

Some inputs are parameters of the model:

- `connected` — whether a database connection could be opened;
- `fault` — the INSERT or commit, if any, that raises for a reason of the
  database's own (a table missing, the connection lost);
- `selectRaises` — whether the listing's SELECT raises for such a reason;
- `now` — the transaction's `CURRENT_TIMESTAMP`;
- `time` — the formatted `datetime.now()`;
- `acknowledged` — the Telegram provider's answer.

Two behaviours of `submit_form` are easy to miss, and the model keeps both:

- A body that is not a JSON object gets 500 "Internal server error", not 400:
  `request.get_json()` or `data.get` raises inside the `try`
  (backend/app.py:109-111, 161-163). The same happens when a required field is
  JSON `null` or a number, because `.strip()` raises on it.
- A `form_type` that is a JSON number, boolean or list is stored: PostgreSQL
  keeps its text in the `VARCHAR(50)` column. Then `form_type.title()`
  (backend/app.py:148) raises after `conn.commit()` (backend/app.py:142). The
  answer is 500 "Internal server error" with both rows committed, and no
  notification is sent.

## Model

| member | source | states |
|---|---|---|
| Text.TrimStart | backend/app.py:111-113 | the removed prefix is all whitespace and what is left does not start with whitespace |
| Text.TrimEnd | backend/app.py:111-113 | the removed suffix is all whitespace and what is left does not end with whitespace |
| Text.Strip | backend/app.py:111-113 | the result is no longer than the input and neither starts nor ends with whitespace; it is empty exactly when the input is all whitespace |
| Text.StripIsOuterCore | backend/app.py:111-113 | for any split of the input into whitespace, a core that neither starts nor ends with whitespace, and whitespace, `strip()` returns exactly that core |
| Text.StripKeeps | backend/app.py:111-113 | text with no leading or trailing whitespace is left unchanged |
| Text.StripIdempotent | backend/app.py:111-113 | stripping twice gives the same as stripping once |
| Text.Title | backend/app.py:148 | `title()` keeps the length; its value at each position is given by `Text.TitleAt` |
| Text.TitleAt | backend/app.py:148 | `title()` keeps the length and non-letters; a letter becomes lower case exactly when the character before it is a letter, upper case otherwise |
| Text.TitleIdempotent | backend/app.py:148 | title-casing twice gives the same as title-casing once |
| Pipeline.RequiredValue | backend/app.py:111-113 | `data.get(key, '').strip()` has a value exactly when the key is absent or holds a string; the value is empty exactly when the key is absent or the string is all whitespace |
| Pipeline.FormTypeValue | backend/app.py:114 | an absent form_type becomes "price_calculator"; a given one is taken as it is, unstripped, whatever its JSON type |
| Pipeline.MessageValue | backend/app.py:115 | an absent message becomes ""; a given string is taken unstripped; JSON null stays None |
| Pipeline.Parse | backend/app.py:109-118 | parsing succeeds exactly when the body is an object and all three required fields hold non-whitespace text; it is "missing fields" exactly when all three are absent or strings but one is blank; every other body is an internal error; on success the three values are stripped and non-empty, and form_type (string, null, number/boolean/list or object) and message are taken unstripped with defaults "price_calculator" and "" |
| Pipeline.BuildNotification | backend/app.py:147-155 | the title is "New Form Submission - " plus the title-cased form type; name, email, phone and time are carried over; the message is shown when non-empty and "No additional message" replaces an empty or null one |
| Pipeline.TelegramRequest | backend/app.py:76-88 | no request is made exactly when the token or the chat id is empty; otherwise one POST carries the chat id, the text and parse mode HTML |
| Pipeline.SendTelegramMessage | backend/app.py:76-94 | the notifier reports success exactly when it is configured and the provider acknowledged; it always reports failure when unconfigured |
| Backend.Varchar | backend/app.py:50-62 | a value stored in `VARCHAR(n)` keeps its length up to n; it is cut to n characters only when the cut part is all spaces, and refused otherwise |
| Backend.UserColumns | backend/app.py:128-132 | the users INSERT accepts the values exactly when none holds a NUL and each fits its `VARCHAR` column as `Varchar` says; the stored values are the ones `Varchar` gives |
| Backend.SubmissionColumns | backend/app.py:137-140 | the submission is stored exactly when form_type is a string, number, boolean or list whose text has no NUL and fits `VARCHAR(50)` and the message has no NUL, with the form_type text `Varchar` gives; it fails after an id is drawn exactly for a null form_type with a sendable message |
| Backend.StrippedNeverTruncated | backend/app.py:111-132 | a stripped value is never cut by its column: it is stored whole or refused |
| Backend.Respond | backend/app.py:107-163 | 200 `{success, "Form submitted successfully"}` exactly when the rows are committed and form_type is a string; 400 "Missing required fields" exactly for a missing required field; 500 "Database connection failed" exactly when a valid body finds no connection; every other answer is 500 "Internal server error", including a committed body whose form_type is not a string; the notifier plays no part |
| Backend.LeftJoin | backend/app.py:175-177 | the join has at least one row per user; `LeftJoinListsEveryUser`, `RowsFor` and `CountMatchedLeftJoin` give its rows |
| Backend.LeftJoinListsEveryUser | backend/app.py:175-177 | every user appears in the join, with or without a submission |
| Backend.RowsFor | backend/app.py:174-177 | a user's part of the LEFT JOIN is one row per submission of theirs, the k-th row carrying the k-th submission's form_type, message and created_at, or one row with NULL submission columns when they have none; every row carries the user's columns |
| Backend.InsertNewestFirst | backend/app.py:178 | inserting a row into a newest-first listing keeps it newest-first and adds exactly that row |
| Backend.SortNewestFirst | backend/app.py:178 | `ORDER BY u.created_at DESC` yields a permutation of the joined rows with non-increasing user creation times |
| Backend.CountMatchedPermutation | backend/app.py:178 | ordering the rows does not change how many of them carry a submission |
| Backend.CountMatchedLeftJoin | backend/app.py:174-177 | the join has as many rows with submission columns as the listed users own submissions |
| Backend.OwnedStep | backend/app.py:61 | one more submission adds one to what the users own when its `user_id` is one of theirs, and nothing otherwise |
| Backend.OwnedAll | backend/app.py:61 | when every `user_id` references an existing user, the users own all submissions |
| Backend.MatchedRowsAreSubmissions | backend/app.py:174-179 | under the foreign key, the join holds exactly one row with submission columns per stored submission |
| Backend.LeftJoinIgnores | backend/app.py:174-177 | a submission for a user outside the listed ones leaves their rows unchanged |
| Backend.LeftJoinAfterSubmit | backend/app.py:128-142 | a new user with one submission adds exactly the matched pair to the join and leaves every earlier row as it was |
| Backend.ListingAfterSubmit | backend/app.py:128-142 | after committing a new user with one submission, the listing is the old listing plus exactly their matched row |
| Backend.ListingOfOne | backend/app.py:174-179 | one user with one submission of theirs lists as their single matched row |
| Backend.Store.constructor | backend/app.py:47-66 | both tables and both sequences start empty, and the key invariants hold |
| Backend.Store.Listing | backend/app.py:174-181 | the listing is newest-first and holds exactly the rows of the LEFT JOIN |
| Backend.Store.GetUsers | backend/app.py:165-189 | with a connection and a SELECT that runs, the rows, newest first, exactly the LEFT JOIN; otherwise 500 "Database connection failed" when there is no connection and 500 "Internal server error" when the SELECT raises |
| Backend.Store.ListedSubmissions | backend/app.py:174-179 | the listing of a valid store has exactly one row with submission columns per stored submission |
| Backend.Store.InsertUser | backend/app.py:128-134 | the users INSERT draws the next id and returns the row with the stored column values and `now`, or raises (on the values or for the database's own reason) before drawing an id |
| Backend.Store.InsertSubmission | backend/app.py:136-140 | the form_submissions INSERT returns the row linked to the given user id; a NULL form_type fails after drawing an id, an object form_type and every other failure before |
| Backend.Store.Commit | backend/app.py:142 | both rows become visible together, appended to their tables, and the key and foreign-key invariants still hold |
| Backend.Store.Persist | backend/app.py:125-142 | the write succeeds exactly when both INSERTs accept the values and the database raises nowhere; on failure no row is added and each counter moves by at most one; on success exactly one user and one linked submission are appended and the listing gains exactly their row |
| Backend.Store.SubmitForm | backend/app.py:107-163 | the response is the one `Respond` gives, whatever the notifier does; a bad body or a missing connection changes nothing and sends nothing; any failure before the commit adds no row and sends nothing; a commit appends one user with the stripped values and one submission with its `user_id`, under fresh increasing ids, and posts the notification when Telegram is configured and form_type is a string, and nothing otherwise |
| Backend.WellFormedCommits | backend/app.py:109-142 | a body whose required values have no outer whitespace, no NUL and fit their columns, and whose form_type text fits its column, is taken as sent, and both INSERTs store it whole |
| Backend.SubmitToEmpty | backend/app.py:107-163 | on an empty database the response is the one `Respond` gives; afterwards the listing holds exactly the joined row of the body under id 1 when it was committed, and nothing otherwise; a notification is posted only for a committed body with a string form_type |
| Backend.SubmitThenList | backend/test_api.py:32-50 | a well-formed body, such as the sample one, is accepted with the success response, and the listing returns it exactly as sent |
| Backend.SubmitNonStringFormType | backend/app.py:114-163 | a body whose form_type is a number, boolean or list is stored and listed, yet answered with 500 "Internal server error", and no notification is posted |
| Backend.SubmitWithoutName | backend/app.py:117-118 | a body without a name gets 400 "Missing required fields", sends nothing and leaves the listing empty |
| Frontend.FormatPhoneNumber | frontend/js/main.js:191-198 | with exactly ten digits the result has 14 characters whose digits are the input's, in order; with any other number of digits the input comes back unchanged; `FormatPhoneTenDigits` gives every position |
| Frontend.Digits | frontend/js/main.js:192 | `replace(/\D/g, '')` leaves only ASCII digits and never lengthens the text |
| Frontend.DigitsOfChar | frontend/js/main.js:192 | a digit is kept and any other character is removed |
| Frontend.DigitsCounts | frontend/js/main.js:192 | every digit occurs in the result as often as in the input, and no other character is left |
| Frontend.FormatPhoneTenDigits | frontend/js/main.js:192-195 | with exactly ten digits the result is the 14-character `(ddd) ddd-dddd`, each digit in its slot, and its digits in order are exactly the input's |
| Frontend.LayoutSlots | frontend/js/main.js:195 | the layout places the ten digits in slots 1-3, 6-8 and 10-13 around "(", ") " and "-" |
| Frontend.LayoutDigits | frontend/js/main.js:192-195 | the layout adds no digit: reading the digits back gives the ten digits |
| Frontend.FormatPhoneOtherwiseUnchanged | frontend/js/main.js:193-197 | with any other number of digits the input comes back unchanged |
| Frontend.FormatPhoneIdempotent | frontend/js/main.js:191-198 | formatting a formatted number changes nothing |
| Frontend.EmailPatternMatches | frontend/js/main.js:202 | the anchored pattern `^[^\s@]+@[^\s@]+\.[^\s@]+$` as a split of the text into three runs free of whitespace and '@'; equal to `ValidateEmail` by `ValidateEmailIsPattern` |
| Frontend.ValidateEmail | frontend/js/main.js:201-204 | the character-level check: no whitespace, exactly one '@' with text before it, and a '.' after it that is neither the first nor the last character of the domain; equal to the pattern by `ValidateEmailIsPattern` |
| Frontend.ValidateEmailMatchesPattern | frontend/js/main.js:202-203 | whatever the character-level check accepts, the regular expression matches |
| Frontend.PatternMatchesValidateEmail | frontend/js/main.js:202-203 | whatever the regular expression matches, the character-level check accepts |
| Frontend.ValidateEmailIsPattern | frontend/js/main.js:202-203 | `validateEmail` holds exactly when there is no whitespace, exactly one '@' with text before it, and a '.' after it that is neither the first nor the last character of the domain |
| Frontend.EmailPatternRejects | frontend/js/main.js:202 | any whitespace, a missing '@' or a second '@' is rejected |
| Frontend.FromEntries | frontend/js/main.js:65 | the keys are exactly the entries' keys; `FromEntriesLastWins` gives each key its last value |
| Frontend.FromEntriesLastWins | frontend/js/main.js:65 | `Object.fromEntries` gives each key the value of its last entry |
| Frontend.FromEntriesAbsent | frontend/js/main.js:65 | a key no entry carries is absent |
| Frontend.SubmitPayload | frontend/js/main.js:79-82 | the payload has the form's keys plus form_type; form_type is "price_calculator" even when the form had its own; every other key keeps its value |
| Frontend.PayloadKeepsField | frontend/js/main.js:64-82 | every field of the form other than form_type reaches the payload with its last value |

## Left out

- Flask plumbing is not modelled: routing, `jsonify`, `render_template`, CORS, the `/` and `/admin` pages and the `/health` endpoint. Responses are a status and a success or error body.
- The DDL of `init_database` is not modelled. Only its shapes appear: column widths, NOT NULL on `form_type`, the `user_id` reference and SERIAL keys.
- Transactions are not modelled as machinery. A request that fails before the commit adds no row. Ids drawn from the sequences stay drawn, as PostgreSQL sequences are not transactional. The connection the code leaks when a statement raises is not modelled.
- Concurrency between requests is not modelled; it lives in the database engine.
- Backend.Store.SubmitForm: the notification is the Telegram POST it makes, and the HTTP call itself is the boolean `acknowledged`. Its result is discarded, as in the code. Network failures and timeouts are not modelled.
- Pipeline.BuildNotification: the message is modelled as labelled fields. The HTML tags, indentation and line breaks of the f-string are not modelled, and neither is the `strftime` formatting of the time, which is a parameter.
- Pipeline.Parse: `message` may be absent, a string or null. A number, boolean, list or object in `message` is not modelled. PostgreSQL would store the text of the first three. psycopg2 refuses an object after the user id is drawn. The notification shows such a value unless Python finds it falsy.
- Pipeline.Parse: a `form_type` number, boolean or list is `CastType`, carrying the text PostgreSQL stores. A list PostgreSQL cannot type as one array (mixed element types) is not told apart from one it can.
- Backend.Store.GetUsers: a SELECT that raises is the boolean `selectRaises`; why it raises is not modelled.
- Backend.Store.SubmitForm: a statement or commit that raises for the database's own reason is the parameter `fault`. Such a failure is taken to happen before its statement draws an id.
- Backend.Respond: takes the same `fault` parameter; a failure while closing the cursor or connection after the commit is not modelled.
- Backend.Store.InsertUser: ids are unbounded naturals. SERIAL is a 4-byte integer (backend/app.py:49, 60), so `nextval` raises after 2147483647; that limit is not modelled, for users or for submissions.
- Text.Title: only ASCII letters are cased characters. Python's `str.title()` also cases other Unicode letters and treats letters without case as breaks.
- Strings are sequences of Unicode scalar values. JavaScript's UTF-16 code units and surrogate pairs are not modelled.
- Backend.SortNewestFirst: PostgreSQL leaves the order of rows with equal `created_at` unspecified. The model keeps join order, and the contracts claim only the order and the permutation.
- The DOM parts of `main.js` are not modelled: the carousel, dropdown, smooth scroll, notification pop-up, and the `fetch`/alert handling of the form.
- `frontend/server.js`, `backend/run.py`, `backend/setup.py` and `backend/config/config.py` are not part of this model: they are a static file server, set-up scripts and environment loading.
