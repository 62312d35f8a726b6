# api-gerenciador: the user-record service, modelled in Dafny

The service keeps one MySQL table, `usuarios`. Each row has an id, `nome`, `telefone`, a bcrypt digest `senha` and a `status` flag. The service answers six kinds of HTTP request over that table: list, create, status update (PATCH or PUT), full update (PUT or PATCH), delete and login. This project models the decisions those handlers make and proves properties about them:

- `normalize.dfy` (module `Normalize`) holds the two input normalizers of `POST /usuarios`. The name formatter is `toLowerCase`, then `replace(/\b\w/g, toUpperCase)`, then `trim`. The phone normalizer is `replace(/\D/g, '')` followed by the test `/^(\d{10}|\d{11})$/`. Both are pure functions. JavaScript's `\w` is exactly `[A-Za-z0-9_]`, `\d` is `[0-9]`, and `trim` strips the ECMAScript whitespace and line-terminator code points. These definitions live in `text.dfy` (module `Text`).
- `usuarios.dfy` (module `Usuarios`) defines the table as the class `UserTable`. It holds a map from id to row, the ids in primary-key order, and the next AUTO_INCREMENT value. Each handler is a method that returns a status code and a JSON body. `Valid()` is the invariant every handler keeps: `order` lists exactly the ids of the rows in increasing order, every id is below the next AUTO_INCREMENT value, and `telefone` is unique. The uniqueness is the UNIQUE constraint the create handler relies on when it maps `ER_DUP_ENTRY` to 400.
- `bcrypt.hash` and `bcrypt.compare` are the uninterpreted function fields `hash` and `matches`. `HashSound()` states that `compare` accepts a password against a digest made from it. It is assumed only where a property needs it.
- Every handler takes a `fault` flag. It stands for a driver or bcrypt failure, which the handler answers with 500 and which leaves the table unchanged.

The model follows the code as written, also where it departs from what the service evidently means to do:

- The name formatter is ASCII-minded. `\w` does not match `ã`, so `"joão DA silva"` becomes `"JoãO Da Silva"`, not `"João Da Silva"`.
- A full update without a password sets `senha` to NULL; it does not keep the old digest. Login for that user, while its `status` is not 0, then reaches `bcrypt.compare(senha, null)`, which rejects, so the answer is 500; an inactive user gets 403 before the password is looked at.
- `GET /usuarios` lists every row, active or not, despite the comment saying "ativos".

The model assumes this schema: `nome` and `telefone` NOT NULL, `telefone` UNIQUE, `senha` nullable, `status` DEFAULT 1, strict SQL mode, and the InnoDB engine. SQL leaves the row order of a SELECT without ORDER BY open; InnoDB's full scan of its clustered index returns the rows in primary-key order, and the list handler's query needs that full scan because the UNIQUE index on `telefone` does not hold `nome` and `status`. Under it, a full update that omits `nome` or `telefone`, or that writes another row's `telefone`, is rejected by the database and answered with 500. That handler does not special-case `ER_DUP_ENTRY`. `affectedRows` counts matched rows, which is the mysql2 default (`CLIENT_FOUND_ROWS`). So 404 means exactly that the id is absent.

## Model

| member | source | states |
|---|---|---|
| Text.IsDigit | server.js:90-93 | `\d` (no `u` flag): exactly `0`..`9`; a digit is neither whitespace nor an upper-case letter |
| Text.IsWordChar | server.js:86 | `\w` (no `u` flag): exactly `[A-Za-z0-9_]`; every digit and `_` is one, and every one is ASCII, so no accented letter is |
| Text.IsSpace | server.js:87 | what `trim` strips: U+0009..U+000D, U+0020, U+00A0, U+1680, U+2000..U+200A, U+2028, U+2029, U+202F, U+205F, U+3000, U+FEFF; none of them is an upper-case letter |
| Text.LowerChar | server.js:85 | the model's `toLowerCase` on one character: ASCII and Latin-1 capitals move to their lower-case letter and every other character stays; for this mapping, whether a character is a `\w` character or whitespace does not change |
| Text.UpperWordChar | server.js:86 | `toUpperCase` on a `\w` match gives a `\w` character that is not `a`..`z` and has the same lower case |
| Text.DecimalString | server.js:62 | `${id}` renders a non-empty digit string without a leading zero |
| Text.DecimalRoundTrip | server.js:62 | reading the rendered id back as a decimal number gives the id |
| Normalize.LowerCase | server.js:85 | lower-casing keeps the length |
| Normalize.CapitalizeWords | server.js:86 | the global replace keeps the length |
| Normalize.StartsWord | server.js:86 | the positions `\b\w` matches: a `\w` character at the start of the string or after a non-`\w` character |
| Normalize.SkipSpaces | server.js:87 | where `trim` starts: everything before is whitespace and the character there is not |
| Normalize.SkipSpacesBack | server.js:87 | where `trim` ends: everything after is whitespace and the character before is not |
| Normalize.Trim | server.js:87 | the result is no longer than the input, has no whitespace at either end, and is empty exactly when the input is all whitespace |
| Normalize.TrimSlice | server.js:87 | `trim` only cuts: its result is the slice `s[k..m]` of the input with only whitespace before `k` and after `m` |
| Normalize.TrimTrimmed | server.js:87 | a string with no whitespace at either end is its own `trim` |
| Normalize.TrimSameSpaces | server.js:87 | two strings with whitespace at the same positions are trimmed at the same positions |
| Normalize.FormatName | server.js:84-87 | the stored name is never longer than the input and has no leading or trailing whitespace |
| Normalize.FormatNameBlank | server.js:77-87 | a whitespace-only name passes the presence check and is stored as `""` |
| Normalize.FormatNameOnlyChangesCase | server.js:84-87 | lower-casing the stored name gives the trimmed lower-cased input: the formatter changes case and trims, nothing else |
| Normalize.CapitalizeWordsCapitals | server.js:86 | on a lower-case string the replace upper-cases a character exactly when it is a `\w` character at the start or after a non-`\w` character |
| Normalize.FormatNameCapitals | server.js:84-87 | in the stored name every character that starts a word is not `a`..`z`, and every other character is already lower case |
| Normalize.RecapitalizeCapitalized | server.js:85-86 | a string whose word-starting characters are not `a`..`z` and whose other characters are lower case comes back unchanged from lower-casing and capitalizing |
| Normalize.FormatNameIdempotent | server.js:84-87 | formatting a stored name again leaves it unchanged |
| Normalize.FormatNameExample | server.js:84-87 | `"joão DA silva"` is stored as `"JoãO Da Silva"` |
| Normalize.Digits | server.js:90 | the result holds only `0`..`9`, is never longer than the input, and a digit-only string is its own result |
| Normalize.DigitsInOrder | server.js:90 | the result is exactly the input's digits in their original order, given by their increasing positions; a position is among them iff it holds a digit |
| Normalize.PhonePattern | server.js:93 | `/^(\d{10}|\d{11})$/`: the string has 10 or 11 characters and removing the non-digits leaves it unchanged |
| Normalize.NormalizePhone | server.js:90-97 | the phone is accepted iff its digits number 10 or 11, and then the stored value is those digits |
| Normalize.NormalizePhoneIdempotent | server.js:90-93 | a stored phone normalizes to itself |
| Usuarios.Present | server.js:77 | JavaScript truthiness of a body field, as in `!nome` and, at line 173, `!telefone`: false exactly for `undefined`/`null` and `""` |
| Usuarios.UniquePhones | server.js:114-116 | the UNIQUE constraint on `telefone`: no row holds a `telefone` that some other row holds |
| Usuarios.PhoneTaken | server.js:102-116 | inserting `t` raises `ER_DUP_ENTRY` exactly when `t` is among the stored `telefone` values |
| Usuarios.PhoneTakenByOther | server.js:221-224 | writing `t` into row `id` violates the UNIQUE constraint only if `t` is stored already; for an id not in the table, exactly then |
| Usuarios.Select | server.js:178-181 | the SELECT by `telefone` returns ids of rows holding exactly that `telefone`, and every row of the table order holding it, with no normalization of the input |
| Usuarios.SelectNoMatch | server.js:178-185 | when no row has the phone, the SELECT is empty |
| Usuarios.SelectOwner | server.js:178-187 | under the UNIQUE constraint, `results` is exactly the one row holding the phone, so `results[0]` is that row |
| Usuarios.SelectEmpty | server.js:178-185 | `results.length === 0` iff no row holds the phone |
| Usuarios.RemoveFromOrder | server.js:242-245 | after the DELETE, the remaining ids are still the table's rows in primary-key order |
| Usuarios.PhotoUrl | server.js:62 | `/perfis/${u.id}.jpg`: `/perfis/`, then a digit string that reads back as the id, then `.jpg` |
| Usuarios.Listed | server.js:60-63 | `{...u, fotoUrl}` for one row of the SELECT: the row's id, `nome`, `telefone` and `status`, plus the photo path of that id |
| Usuarios.ListView | server.js:55-63 | `results.map(...)`: one element per row of the table order, in that order, so ids increase when the order does |
| Usuarios.PhotoUrlInjective | server.js:60-63 | distinct ids get distinct `fotoUrl` paths |
| Usuarios.UserTable.List | server.js:53-70 | 500 on fault. Otherwise 200 with every row exactly once, in increasing id order (InnoDB's scan order), each `{id, nome, telefone, status}` of its row plus `fotoUrl = "/perfis/<id>.jpg"` and no `senha`. There is no status filter |
| Usuarios.UserTable.Create | server.js:74-122 | 400 if `nome`, `telefone` or `senha` is missing or empty; 400 if the digits are not 10 or 11; 500 on fault; 400 "Telefone já cadastrado" if the normalized phone exists. In those cases the table is unchanged. Otherwise exactly one row is added under a fresh id, holding the formatted name, the digits, `Hash(senha)` and status 1, and the 201 body is `{id, nome, telefone, status: 1}`. `Valid()` is kept |
| Usuarios.UserTable.UpdateStatus | server.js:126-166 | PATCH and PUT alike: 500 on fault, 404 if the id is absent, table unchanged in both. Otherwise only that row's `status` becomes the given value, with no range check, and the body is `{id, status}` |
| Usuarios.UserTable.Update | server.js:211-235 | PUT, and PATCH at lines 260-285, alike: 404 if the id is absent; 500 on fault, a missing `nome` or `telefone`, or another row's `telefone`; table unchanged. Otherwise `nome` and `telefone` are overwritten with the raw inputs, with no check or normalization; `senha` becomes `Hash(senha)` if truthy, else NULL; `status` is kept |
| Usuarios.UserTable.Delete | server.js:238-256 | 500 on fault, 404 if the id is absent, table unchanged in both. Otherwise exactly that row is removed from the rows and from the order |
| Usuarios.UserTable.Login | server.js:170-208 | 400 if `telefone` or `senha` is missing or empty; 500 on fault; 401 if no row has exactly that `telefone`; then for that row: 403 if status is 0 (before the password), 500 if the digest is NULL, 401 if `compare` fails, else 200 with the row without `senha`. The table is only read |
| Usuarios.UserTable.CreateThenLogin | server.js:99-112 | after a successful create, the 201 body is the formatted name and the digits under the new id; logging in with those digits and the same password returns that record |
| Usuarios.UserTable.UpdateWithoutPasswordThenLogin | server.js:216-224 | after a full update without `senha`, login for that phone answers 403 or 500, never 200, whatever the password |
| Usuarios.UserTable.DeactivateThenLogin | server.js:189-192 | after setting status 0, login for that user answers 403 whatever the password |

## Left out

- Express setup, CORS, static serving of `/perfis`, the health route `GET /`, and the 404 and 500 fallback middleware (server.js:10-18, 42-50, 288-297) are framework plumbing.
- Pool creation, the connection test, `app.listen` and the SIGTERM shutdown (server.js:21-40, 300-310) are I/O and process lifecycle.
- Usuarios.UserTable.List: the rows come in primary-key order, which is InnoDB's scan order; other engines (MyISAM reuses the space of deleted rows) may return another order, which the model does not capture.
- Concurrent requests are not modelled: each handler is one atomic step on the table.
- bcrypt internals are left uninterpreted: salting, the cost factor 10 and constant-time comparison. `hash` is a fixed function, so the model does not capture that two hashes of one password differ.
- Driver and bcrypt failures are the `fault` flag. Which failure happened, and the `console.error` logging, are not modelled.
- Body fields are strings or absent. JSON numbers, booleans or objects in `nome`, `telefone` or `senha` are not modelled. On such input the source throws inside or outside its `try`, or MySQL coerces the value.
- The `:id` route parameter is a natural number. MySQL's coercion of a non-numeric id string is not modelled.
- The `status` body field is an integer. A missing, NULL or non-numeric status, and the column's integer range, are not modelled.
- `telefone` comparisons, in the login SELECT and in the UNIQUE index, are exact string equality. MySQL collation rules, such as case or trailing-space insensitivity, are not modelled.
- `toLowerCase` is exact only for ASCII and Latin-1 capitals (U+00C0 to U+00DE, except U+00D7). Every character outside ASCII and Latin-1 is left unchanged (e.g. Ł, Σ, U+212A KELVIN SIGN), and so are the length-changing mappings such as U+0130. JavaScript maps U+212A to `k` and U+0130 to `i` plus a combining dot, turning a non-`\w` character into a `\w` one; the model does not capture that.
- AUTO_INCREMENT values lost by a failed insert are not modelled: a rejected create leaves the counter unchanged.
- JSON serialisation of the bodies is not modelled. Status and update responses echo the id from the URL as a string; the model gives the number.
