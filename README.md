# Referral keys and login, modelled in Dafny

This project models the two pieces of logic in a small PHP sign-up/referral
site:

- **reffera.php**, the referral page. It draws 16-character keys over the
  alphabet `0-9a-zA-Z` until `isKeyUnique` finds the key in no row of the
  `refferal` table. It inserts a row `(user_id, referral_key)` for the session's
  user and sets that user's `ork` flag. Then it shows the key stored for the user.
- **login.php**, the login page. It trims and checks the two form fields. It
  looks the username up and verifies the password. It either fills the session
  (`loggedin`, `id`, `username`, `ork`) or produces one of the page's error messages.

The database is modelled as state: a `Referral.Database` object holds the
`refferal` table as a sequence of rows and the `users` table as a map from
id to record. Whether a prepared statement prepares and executes is an oracle
argument (`StmtStatus`), and the helpers' thrown exceptions are `Result`
failures. `random_int` is replaced by a supplied stream of alphabet indices
(`KeyGen.CharIndex`, an integer in 0..61). `password_verify` is a
function-typed parameter. The login SELECT is a function from the bound
username to its outcome.

Files: `wrappers.dfy` (Option, Result), `keygen.dfy` (module `KeyGen`,
`generateUniqueKey`), `referral.dfy` (module `Referral`, the rest of
reffera.php), `login.dfy` (module `Login`).

The model follows the code, and the code does not limit a user to one key:

- Each request to reffera.php inserts one more key for the user. The code never
  checks for an existing row, although the page heading says a user can generate
  only one key. The model proves that two successful requests leave at least two
  rows for the user (`TwoRunsTwoRows`).
- The page then shows the user's FIRST key in table order. After a second
  request it shows the old key, while the success alert names the new one
  (`ScriptShowsFirstKey`).
- There is no bounded retry and no "owner already has a key" reconciliation,
  and the code neither relies on nor handles a storage-level uniqueness
  constraint. Key uniqueness rests on the read in `isKeyUnique`, so it holds only for one request at a time
  (`ScriptKeepsKeysDistinct`).

## Model

| member | source | states |
|---|---|---|
| KeyGen.AlphabetShape | reffera.php:16-17 | the alphabet has 62 characters: the ten digits, then `a`-`z`, then `A`-`Z` |
| KeyGen.CharAtDecodes | reffera.php:16 | every alphabet position holds an alphanumeric character that maps back to that position, so the 62 characters are distinct |
| KeyGen.KeyFromDraws | reffera.php:18-22 | the key built from n draws has exactly n characters, every one alphanumeric |
| KeyGen.KeyFromDrawsAt | reffera.php:20 | character k of the key is the alphabet character picked by draw k |
| KeyGen.DecodeKey | reffera.php:16-20 | a string decodes to indices exactly when all its characters are alphanumeric, one index per character |
| KeyGen.DecodeKeyFromDraws | reffera.php:16-20 | decoding a generated key returns exactly the draws that produced it |
| KeyGen.KeyFromDrawsInjective | reffera.php:16-20 | two draw streams give the same key if and only if they are equal |
| KeyGen.GenerateUniqueKey | reffera.php:14-23 | the loop appends one character per iteration; the key has exactly `length` characters (default 16), character k being the alphabet character of draw k; a length of 0 or less gives "" |
| Referral.CountKeyOccurrences | reffera.php:34 | the COUNT(*) of rows with the key is the number of times the key occurs in the referral_key column |
| Referral.CountKeyZero | reffera.php:34-48 | the count is 0 if and only if no row carries the key |
| Referral.Database.IsKeyUnique | reffera.php:32-49 | returns true exactly when no row has `referral_key = key`; a failing prepare or execute throws |
| Referral.Database.InsertReferralKey | reffera.php:59-75 | on success appends exactly the row (userId, key), leaves earlier rows and `users` unchanged and returns true; on failure throws and changes nothing |
| Referral.SetOrk | reffera.php:86 | the UPDATE sets `ork` of the user with that id only; other users and the user's other columns are unchanged, no id is added |
| Referral.Database.UpdateUser | reffera.php:84-100 | on success `users` becomes SetOrk of the old map and true is returned; on failure throws and changes nothing |
| Referral.Candidate | reffera.php:110 | the key of attempt n, built from draws 16n..16n+15, has 16 alphanumeric characters |
| Referral.SearchFrom | reffera.php:109-111 | when the do-while loop exits with a key, that key is the candidate built by the attempt it exits on |
| Referral.SearchFromFound | reffera.php:109-111 | the key the loop exits with occurs in no row, and every earlier candidate was checked and found in use |
| Referral.SearchFromThrew | reffera.php:35-42 | an exception escaping the loop is the one thrown by a failed isKeyUnique statement |
| Referral.SearchFromStep | reffera.php:109-111 | one loop turn: a failed check throws, an unused generated key ends the loop, a used one moves to the next attempt |
| Referral.Database.FindUniqueKey | reffera.php:109-111 | the imperative do-while loop ends exactly as SearchFrom says |
| Referral.FirstKeyOf | reffera.php:152 | finds nothing exactly when no row belongs to the user; otherwise the key found is in a row of that user |
| Referral.FirstKeyOfAppend | reffera.php:152-178 | appending a row never changes the key already found for a user; it supplies one only to a user who had none |
| Referral.Retrieve | reffera.php:152-181 | a prepare failure shows the prepare error; a shown key is in a row of the session user; "No referral key found" appears exactly when execute fails or the user has no row |
| Referral.Database.RetrieveKey | reffera.php:152-181 | the retrieval block shows what Retrieve says, reading the current table |
| Referral.CountOwner | reffera.php:117-118 | the number of rows of a user is 0 exactly when no row belongs to the user |
| Referral.CountOwnerAppend | reffera.php:118 | appending a row adds one to its owner's count and nothing to any other user's |
| Referral.RefferaScript | reffera.php:109-181 | one request never removes or rewrites a row and adds at most one; it creates or deletes no user; an exception escaping the loop happens before any write; the success alert names exactly the row added for the session user |
| Referral.Database.GenerateAndStore | reffera.php:109-181 | a whole request: the new tables and page are those of RefferaScript on the old tables |
| Referral.ScriptRowEffect | reffera.php:109-118 | a request appends the row (session id, new key) when the loop found a key and the INSERT ran, and otherwise leaves the rows as they were; the key has 16 alphanumeric characters and was in no row |
| Referral.ScriptOrkEffect | reffera.php:116-133 | `users` changes only when the insert and then the update ran, and then only by SetOrk on the session user; an insert exception means no flag is set |
| Referral.ScriptKeepsKeysDistinct | reffera.php:109-118 | if no two rows shared a key before a request, none do after it |
| Referral.ScriptAddsRowForUser | reffera.php:109-118 | each request that finds a key and inserts it adds one row for the session user, whatever rows the user had |
| Referral.TwoRunsTwoRows | reffera.php:109-148 | two successful requests by one user leave that user at least two rows: issuance is neither single nor idempotent |
| Referral.ScriptShowsFirstKey | reffera.php:116-181 | with the SELECT running, the page shows the user's earlier key if there was one, else the new key if it was inserted, else nothing |
| Referral.NoSaveErrorAlert | reffera.php:118-130 | the "An error occurred" alert is never shown, because both helpers return true or throw |
| Login.SkipLeading | login.php:60-61 | the forward scan passes only trim characters and stops on a kept character or at the end |
| Login.SkipTrailing | login.php:60-61 | the backward scan passes only trim characters and stops after a kept character or at the start |
| Login.Trim | login.php:60-61 | the trimmed field is empty exactly when the input is all trim characters; otherwise it is the slice between the two scans and starts and ends with a kept character |
| Login.TrimIdempotent | login.php:60-61 | trimming a trimmed field changes nothing |
| Login.IsEmptyInPhp | login.php:64-72 | PHP's empty() on a string holds exactly for a string of at most one character, that character being '0' |
| Login.EmptyAfterTrim | login.php:60-69 | a trimmed field is rejected as empty exactly when the raw field has at most one character other than trim characters, and that character is '0' |
| Login.Session.IsLoggedIn | login.php:6 | the session counts as logged in exactly when `loggedin` is set to the boolean true; any other value fails the strict comparison |
| Login.HandleLogin | login.php:19-56 | login succeeds exactly when the SELECT stores one row, the fetch succeeds and the password verifies, and then uses that row; "Invalid username or password." exactly when the row count is not 1 or the password fails; the execute and prepare messages exactly on those failures; null exactly when the single-row fetch fails |
| Login.UnknownUserLooksLikeWrongPassword | login.php:28-45 | an unknown username and a wrong password for a known one yield the identical result |
| Login.WithLogin | login.php:33-37 | the session gets loggedin = true and the id, stored username and ork of the fetched row; every other session entry is kept |
| Login.Session.Establish | login.php:34-37 | the four session assignments, leaving the session logged in |
| Login.LoginRequest | login.php:5-78 | a logged-in session is redirected untouched. A POST trims both fields and sets "Please enter username." / "Please enter your password." when a trimmed field is "" or "0". handleLogin runs, on the trimmed username, only when both checks pass. Success fills the session and redirects; a message is shown on the form; null shows nothing |

## Left out

- Connecting to MySQL, binding parameters and raw error text: a statement is only "runs", "fails to prepare" or "fails to execute". Exception messages and mysqli error text are not modelled.
- Randomness: `random_int` is a supplied index stream. Nothing is said about distribution, termination of the uniqueness loop or collision probability.
- Referral.SearchFrom: the do-while loop in the source may run forever. The model stops with `Exhausted` when the supplied draws or check outcomes run out. That outcome (and the page `SearchExhausted`) has no counterpart in the source.
- The row order of `SELECT referral_key ... WHERE user_id = ?` is not fixed by SQL. The model shows the first matching row in table (insertion) order.
- After a failed execute of the retrieval SELECT, `get_result()` gives false. The model takes PHP's reading of `num_rows` on false as null, which prints "No referral key found for this user.".
- If `fetch()` in `isKeyUnique` fails, `$count` stays null. The model treats the COUNT(*) row as always fetched.
- mysqli's exception reporting mode, which turns the `if (!$stmt)` branches into exceptions, is not modelled. The branches are modelled as the code writes them.
- A fatal error raised by an exception escaping `isKeyUnique` is the page outcome `Fatal`. Nothing after it is modelled.
- `password_verify` and the hash scheme are an arbitrary predicate argument.
- `session_start`, `header` redirects, `exit`, `checkLogin` from `config.php` (not part of this model), and the session id's origin: the referral page receives the session's `id` as a parameter.
- A missing `$_POST` field (trim of null) is not modelled; fields are strings.
- Referral.Database.IsKeyUnique: the comparison `referral_key = ?` is taken as exact, case-sensitive string equality. The column's collation is not given by the code; under a case-insensitive collation (MySQL's default ones) `isKeyUnique` also rejects a key that differs from a stored one only in letter case, and `Referral.SearchFromFound`'s "earlier candidates were in use" then covers exact matches only.
- The type of the `ork` column is taken as boolean.
- All HTML output, styling and `htmlspecialchars` echoing.
- Concurrency: the read-then-insert race between `isKeyUnique` and `insertReferralKey`. Every result here is about one request at a time.
- The 62-character `$characters` literal is written as three concatenated literals (digits, lower-case, upper-case). The string is the same.
