# MySecretNotes: a verified model of the notes application

MySecretNotes is a small Flask application (`MySecretNotes/app.py`) in which
users register with a password and a TOTP second factor, log in, write short
notes and import other users' notes by their ten-digit public ID. This
project models that application's core in Dafny and proves what its
request handlers do to the SQLite database and the Flask session:

- **State** (`Store`). The state is the `users` and `notes` tables plus the
  session dictionary. `init_db`'s seed rows form the initial database.
  `ValidDb` and `Valid` are the invariant that every handler keeps.
- **Step functions** (`Handlers`). The login-protected notes page (add,
  import, listing), login, registration, TOTP confirmation and logout are
  pure functions. Each maps a database and a session to a new database, a
  new session and a view: the page rendered, with its messages, or a
  redirect.
- **Imperative object** (`Server.NotesApp`). The application is also a
  class whose fields are the two tables and the session. Its methods update
  those fields in place, as app.py updates the database and `session`. Each
  handler method is proved to do exactly what its step function says and
  to keep the invariant.
- **Password policy** (`Passwords`). `validate_password` is modelled as a
  pure function, with its checks in app.py's order and its exact messages.
- **Supporting modules.** `Text` models Python's `str.strip()`, the
  regular-expression classes, and SQLite's conversion of a digit string to
  the INTEGER `publicID` column. `Tables` models
  `SELECT ... WHERE ...; fetchall()` as an order-preserving filter.
  `Wrappers` holds `Option` and Python truthiness.
- **External values as parameters.** bcrypt, pyotp and the random and clock
  values are parameters. Password and TOTP checking are function
  parameters. The hash, the fresh TOTP secret, the random public ID and the
  timestamp are value parameters.

Two behaviours of the code are stated as theorems rather than assumed away:

- **Public IDs are not unique.** Importing a note copies its `publicID`
  (`NotesProperties.ImportDuplicatesPublicId`).
- **Usernames are not unique.** Only `register` checks the name, and
  `verify_2fa` inserts without checking it again, so two clients can both
  create the same name (`AuthProperties.DuplicateUsernames`). Login then
  only ever considers the first such row (`AuthProperties.LoginEffect`).

## Model

| member | source | states |
|---|---|---|
| Passwords.ValidatePassword | MySecretNotes/app.py:59-70 | Returns None exactly when the password is strong: at least 13 characters and containing an uppercase letter, a lowercase letter, a digit and a special character. Otherwise it returns the first failing check in source order; each error holds exactly when the earlier checks pass and its own fails. |
| Passwords.Search | MySecretNotes/app.py:62-69 | `re.search` with a one-character class is true exactly when some character of the string belongs to the class. |
| Text.TrimStart | MySecretNotes/app.py:130 | The result is a suffix of the input, everything removed is whitespace, and the result does not start with whitespace. |
| Text.TrimEnd | MySecretNotes/app.py:130 | The result is a prefix of the input, everything removed is whitespace, and the result does not end with whitespace. |
| Text.Strip | MySecretNotes/app.py:130 | `str.strip()`: the result is a contiguous piece of the input with only whitespace on either side, and it neither starts nor ends with whitespace. |
| Text.StripEmptyIff | MySecretNotes/app.py:130-133 | The stripped note input is empty exactly when the raw input is all whitespace. |
| Text.DigitsValue | MySecretNotes/app.py:156-163 | The integer a digit string denotes (leading zeros allowed) is below 10 to the power of its length. |
| Text.Decimal | MySecretNotes/app.py:163 | The zero-padded decimal form of a number has the requested width, consists only of digits, and denotes that number. |
| Text.DecimalOfDigitsValue | MySecretNotes/app.py:156-163 | Round trip: a digit string is the padded decimal form of its own value, so a ten-digit ID and the integer it matches determine each other. |
| Tables.Select | MySecretNotes/app.py:163-164 | `SELECT ... WHERE` returns at most the table's rows, and a row is in the result exactly when it is in the table and satisfies the condition. |
| Tables.SelectAppend | MySecretNotes/app.py:191-192 | After a row is appended, the selection is the old selection plus that row when it matches, and unchanged otherwise. |
| Tables.SelectNone | MySecretNotes/app.py:176-177 | When no row matches, the selection is empty. |
| Tables.SelectNonEmptyIff | MySecretNotes/app.py:163-167 | The selection is non-empty exactly when some row matches. |
| Tables.SelectHeadIsFirst | MySecretNotes/app.py:166-167 | `result[0]` is the first matching row in table order. |
| Store.SeedDb | MySecretNotes/app.py:43-51 | The seeded database satisfies the invariant, has two users and two notes, and both notes belong to "bernardo". |
| Handlers.NotesStep | MySecretNotes/app.py:120-198 | The notes page never touches the users table or the session, keeps every existing note row and appends at most one. A request without either button writes nothing (NotesProperties.NotesReadOnly). The effect of each button is stated by NotesProperties.AddNoteEffect and the Import lemmas, the listing by NotesProperties.ListingIsOwnNotes, and the guard by NotesProperties.LoginRequiredGuard. |
| Handlers.NotesWrite | MySecretNotes/app.py:126-185 | A notes-page request keeps the existing rows and appends at most one. A GET, or a POST whose `submit_button` is neither "add note" nor "import note", leaves the table unchanged with an empty message. Which button does what is stated by NotesProperties.AddNoteEffect and NotesProperties.ImportCopiesFirstMatch. |
| Handlers.AddNote | MySecretNotes/app.py:129-150 | "add note" keeps the existing rows and appends at most one. Its messages and the row it appends are stated by NotesProperties.AddNoteEffect. |
| Handlers.ImportNote | MySecretNotes/app.py:152-184 | "import note" keeps the existing rows and appends at most one. Each outcome is stated by NotesProperties.ImportRejectsMalformedId, ImportFirstMatch, ImportUnknownIdUnchanged and ImportTooLongUnchanged. |
| Handlers.LoginStep | MySecretNotes/app.py:203-229 | Login never writes a table and shows either the index redirect or one of the three login-page messages. A redirect to the index goes with a logged-in session under the submitted username; any other view leaves the session as it was. Which account and which message are stated by AuthProperties.LoginEffect and AuthProperties.LoginUnknownUser. |
| Handlers.RegisterStep | MySecretNotes/app.py:234-273 | Registration never writes a table, always renders the register page and changes only the three pending session fields. It shows the QR code exactly when neither error message is set. The conditions are stated by AuthProperties.RegisterEffect. |
| Handlers.Verify2faStep | MySecretNotes/app.py:276-297 | Confirmation never writes the notes table and appends at most one user. It appends one exactly when it clears the session and redirects to login. The conditions are stated by AuthProperties.Verify2faEffect. |
| Handlers.LogoutStep | MySecretNotes/app.py:299-304 | Logout writes no table and leaves nobody logged in. That it clears the whole session is stated by AuthProperties.LogoutEffect, and the guard by NotesProperties.LoginRequiredGuard. |
| NotesProperties.LoginRequiredGuard | MySecretNotes/app.py:104-110 | Without `logged_in`, the notes page and logout redirect to the login page and change nothing. |
| NotesProperties.NotesReadOnly | MySecretNotes/app.py:124-198 | A GET of the notes page, or a POST with neither button, leaves the database and the session unchanged and lists the user's current notes with no message. |
| NotesProperties.ListingIsOwnNotes | MySecretNotes/app.py:187-192 | The notes page lists exactly the rows of the updated notes table whose `assocUser` is the session's user id. |
| NotesProperties.AddNoteEffect | MySecretNotes/app.py:129-143 | "add note": whitespace-only input gives "Note cannot be empty." and input longer than 500 characters after stripping gives the too-long message; neither changes anything. Otherwise exactly one row is appended: the next id, the user's id, the time, the stripped text and the random public ID. The listing then shows that row after the user's earlier notes. |
| NotesProperties.ImportRejectsMalformedId | MySecretNotes/app.py:152-157 | "import note": an ID that is not exactly ten digits once stripped is rejected with the format message, and nothing changes. |
| NotesProperties.ImportCopiesFirstMatch | MySecretNotes/app.py:159-175 | "import note" when row `i` is the first whose `publicID` equals the ID's value and its text fits: exactly one row is appended, copying that row's date, text and public ID for the session's user, with "Note imported successfully!"; the listing shows it after the user's earlier notes. |
| NotesProperties.ImportFirstMatch | MySecretNotes/app.py:163-175 | The notes-table write of such an import is exactly the appended copy of the first matching row. |
| NotesProperties.ImportUnknownIdUnchanged | MySecretNotes/app.py:176-177 | An ID that no row carries gives "No such note with that ID!" and changes nothing. |
| NotesProperties.ImportTooLongUnchanged | MySecretNotes/app.py:168-170 | When the first matching row's text is longer than 500 characters, the import is refused with its message and nothing changes. |
| NotesProperties.ImportByStoredId | MySecretNotes/app.py:153-175 | Importing a stored note by its ten-digit public ID succeeds and appends a row with that same public ID for the importing user. |
| NotesProperties.ImportDuplicatesPublicId | MySecretNotes/app.py:172-173 | From any valid logged-in state, importing note `k` by its displayed ID creates a second row with the same `publicID`, so public IDs are not unique. |
| AuthProperties.LoginEffect | MySecretNotes/app.py:211-228 | Login decides on the first row with the given name. It logs that account in (`session.clear()`, then `logged_in`, `userid`, `username`) and redirects to the index exactly when the password verifies, the TOTP secret is non-empty and the code verifies. Otherwise the session is untouched and the matching one of the three messages is shown. |
| AuthProperties.LoginUnknownUser | MySecretNotes/app.py:211-228 | A name no row has fails with "Wrong username or password!". |
| AuthProperties.RegisterEffect | MySecretNotes/app.py:240-273 | Registration never writes the users table. It stores the pending name, hash and secret in the session and shows the QR page exactly when the password is strong and the name is unused; otherwise the session is unchanged. Each failed check sets its own message, and both can be set. |
| AuthProperties.Verify2faEffect | MySecretNotes/app.py:276-297 | Without all three pending values non-empty, the handler redirects to registration and changes nothing. When the code verifies, it appends exactly one user built from the pending values (the name is not checked again), clears the session and redirects to login. Otherwise it shows "Invalid 2FA code." and changes nothing. |
| AuthProperties.SignUpThenLogIn | MySecretNotes/app.py:234-297 | Registering a strong password under an unused name, confirming the code, then logging in with that password and a valid code logs in the new account, whose id is the next user id. |
| AuthProperties.DuplicateUsernames | MySecretNotes/app.py:251-290 | Two clients that both register an unused name before either confirms both get a row with that name. The earlier row is the one login uses. |
| AuthProperties.LogoutEffect | MySecretNotes/app.py:299-304 | Logging out of a logged-in session clears the whole session (a pending registration included) and redirects to the index. |
| Invariants.SeedIsValid | MySecretNotes/app.py:43-51 | The seeded database, with an empty session, satisfies the invariant. |
| Invariants.AppendNoteKeepsValid | MySecretNotes/app.py:142-173 | Appending a note row that respects the invariant keeps it. |
| Invariants.AddNoteKeepsValid | MySecretNotes/app.py:129-143 | The add-note write keeps the database invariant. |
| Invariants.ImportNoteKeepsValid | MySecretNotes/app.py:152-175 | The import write keeps the database invariant. |
| Invariants.NotesWriteKeepsValid | MySecretNotes/app.py:126-185 | Every notes-page write keeps the database invariant. |
| Invariants.NotesKeepsValid | MySecretNotes/app.py:120-198 | The notes page keeps the whole-state invariant. |
| Invariants.LoginKeepsValid | MySecretNotes/app.py:203-229 | Login keeps the invariant: the logged-in id names the row it came from. |
| Invariants.RegisterKeepsValid | MySecretNotes/app.py:234-273 | Registration keeps the invariant. |
| Invariants.Verify2faKeepsValid | MySecretNotes/app.py:276-297 | TOTP confirmation keeps the invariant. |
| Invariants.LogoutKeepsValid | MySecretNotes/app.py:299-304 | Logout keeps the invariant. |
| Invariants.ImportNeverTooLong | MySecretNotes/app.py:169-170 | In a valid database the "Imported note is too long" branch is never taken, because every stored note fits. |
| Server.NotesApp.constructor | MySecretNotes/app.py:16-54 | The application starts with the seeded tables and an empty session, in a valid state. |
| Server.NotesApp.Notes | MySecretNotes/app.py:120-198 | The in-place notes handler produces exactly the state and view of the notes step. It keeps the invariant, leaves the users table and the session alone, and only appends to the notes table. |
| Server.NotesApp.AddNoteFrom | MySecretNotes/app.py:129-150 | The "add note" branch updates the notes field and the message exactly as the add-note write describes. |
| Server.NotesApp.ImportNoteFrom | MySecretNotes/app.py:152-184 | The "import note" branch updates the notes field and the message exactly as the import write describes. |
| Server.NotesApp.Login | MySecretNotes/app.py:203-229 | The in-place login produces exactly the login step's session and view, leaves both tables alone and keeps the invariant. |
| Server.NotesApp.Register | MySecretNotes/app.py:234-273 | The in-place registration produces exactly the registration step's session and view, leaves both tables alone and keeps the invariant. |
| Server.NotesApp.Verify2fa | MySecretNotes/app.py:276-297 | The in-place confirmation produces exactly the confirmation step's state and view. It appends at most one user and keeps the invariant. |
| Server.NotesApp.Logout | MySecretNotes/app.py:299-304 | The in-place logout produces exactly the logout step's state and view and keeps the invariant. |

## Left out

- Flask routing, templates and HTML rendering are reduced to the `View` values. The `index` route (lines 112-117) is not modelled. It only renders or redirects and changes no state.
- The GET forms of `/login/` and `/register/` are not modelled. They render an empty form and change no state.
- CSRF protection, the cookie settings, the secret key and the rate limiter (lines 89-101, 122, 202, 233) are not modelled. They guard transport and request frequency, not the handlers' logic.
- Database errors are not modelled: the `except` branches with their "error occurred" and "server error" messages, and the closing of connections. Every SQL statement is assumed to succeed.
- bcrypt (lines 72-76) is a parameter: a hash value plus a `verifyPassword` function. Its salting and cost factor are not modelled.
- pyotp (lines 78-83, 257, 285-286) is a parameter: a secret value plus a `verifyOtp` function. The TOTP algorithm and the clock are not modelled.
- Handlers.Verify2faStep: the failed-code page is the `OtpPage` view. It stands for line 297's render of register.html with `show_qr=True`, no QR image and the `otp_error` message, and is not modelled as a variant of the register page.
- The QR code and provisioning URI (lines 258-261) are not modelled. The register page only records that the QR code is shown.
- `random.randrange` (line 143) and `time.strftime` (line 143) are parameters of the notes step. The random draw is constrained to randrange's range.
- The `__main__` block (lines 306-319) is not modelled: it creates the database file and starts the server. The model starts from `init_db`'s seed state.
- Text.Strip: only ASCII whitespace is stripped. Python's `str.strip()` also removes Unicode whitespace.
- Text.IsTenDigits and Text.DigitsValue cover ASCII digits only. Python's `\d` also matches other Unicode decimal digits.
- Handlers.LoginStep and Handlers.RegisterStep take the form fields as present strings. A missing field, which raises KeyError in the source (lines 206-208, 241-242), is not modelled.
- Handlers.Verify2faStep takes the code as a string. A missing `otp_code` (None at line 277) is left to the `verifyOtp` parameter.
- Server.NotesApp holds one client's session. Several clients sharing the database are modelled only by the pure step functions, as in `AuthProperties.DuplicateUsernames`.
- Store.Note: the model stores the timestamp as text. The DATETIME type and SQLite's AUTOINCREMENT bookkeeping table are not modelled. Ids are `|table| + 1` because no row is ever deleted.
