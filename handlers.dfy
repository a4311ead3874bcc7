/** The request handlers of the notes application as functions from the
    state before a request to the state after it and the response.
    The foreign libraries are parameters: `verifyPassword` stands for
    bcrypt.checkpw (hash, password) and `verifyOtp` for pyotp's
    TOTP(secret).verify(code) at the time of the request. */
module Handlers {
  import opened Text
  import opened Wrappers
  import opened Tables
  import opened Passwords
  import opened Store

  const NoteEmpty := "Note cannot be empty."
  const NoteTooLong := "Note is too long. Max length is 500 characters."
  const BadNoteId := "Invalid Note ID format. It must be a 10-digit number."
  const ImportTooLong := "Imported note is too long. Max length is 500 characters."
  const ImportOk := "Note imported successfully!"
  const NoSuchNote := "No such note with that ID!"
  const WrongCredentials := "Wrong username or password!"
  const NotConfigured := "2FA not configured for this account."
  const InvalidCode := "Invalid 2FA code."
  const UsernameTaken := "Please choose another username."

  datatype Route = ToIndex | ToLogin | ToRegister

  /** What a handler answers: a redirect or a rendered page with its messages. */
  datatype View =
    | Redirect(to: Route)
    | NotesPage(listing: seq<Note>, importError: string)
    | LoginPage(error: string)
    | RegisterPage(showQr: bool, userError: string, passwordError: string)
    /** register.html rendered after a failed TOTP confirmation: the QR
        block without an image, and the code's error message. */
    | OtpPage(otpError: string)

  datatype Outcome = Outcome(db: Db, session: Session, view: View)

  datatype NotesRequest = Get | Post(form: map<string, string>)

  /** The notes table after an add or import, and the message for the page. */
  datatype NoteWrite = NoteWrite(notes: seq<Note>, message: string)

  /** request.form.get(key, '') */
  function FormGet(form: map<string, string>, key: string): string {
    if key in form then form[key] else ""
  }

  /** WHERE assocUser = uid */
  function OwnedBy(uid: nat): Note -> bool {
    (n: Note) => n.assocUser == uid
  }

  /** WHERE publicID = pid */
  function WithPublicId(pid: int): Note -> bool {
    (n: Note) => n.publicId == pid
  }

  /** WHERE username = name */
  function Named(name: string): User -> bool {
    (u: User) => u.username == name
  }

  /** The "add note" button: store the stripped input as a new note of `uid`. */
  function AddNote(notes: seq<Note>, uid: nat, input: string, now: string, publicId: PublicIdDraw): (w: NoteWrite)
    ensures notes <= w.notes && |w.notes| <= |notes| + 1
  {
    var text := Strip(input);
    if text == [] then NoteWrite(notes, NoteEmpty)
    else if |text| > MaxNoteLength then NoteWrite(notes, NoteTooLong)
    else NoteWrite(notes + [Note(|notes| + 1, uid, now, text, publicId)], "")
  }

  /** The "import note" button: copy the first note with the given public ID
      into the notes of `uid`, keeping its date, text and public ID. */
  function ImportNote(notes: seq<Note>, uid: nat, input: string): (w: NoteWrite)
    ensures notes <= w.notes && |w.notes| <= |notes| + 1
  {
    var id := Strip(input);
    if !IsTenDigits(id) then NoteWrite(notes, BadNoteId)
    else
      var result := Select(notes, WithPublicId(DigitsValue(id)));
      if |result| > 0 then
        var row := result[0];
        if |row.note| > MaxNoteLength then NoteWrite(notes, ImportTooLong)
        else NoteWrite(notes + [Note(|notes| + 1, uid, row.dateWritten, row.note, row.publicId)], ImportOk)
      else NoteWrite(notes, NoSuchNote)
  }

  /** The request posts one of the two buttons of the notes page. */
  predicate ButtonPressed(req: NotesRequest) {
    req.Post? && "submit_button" in req.form
    && (req.form["submit_button"] == "add note" || req.form["submit_button"] == "import note")
  }

  /** What a request to the notes page does to the notes table of the
      logged-in user `uid`: the button pressed decides. */
  function NotesWrite(notes: seq<Note>, uid: nat, req: NotesRequest, now: string, publicId: PublicIdDraw): (w: NoteWrite)
    ensures notes <= w.notes && |w.notes| <= |notes| + 1
    ensures !ButtonPressed(req) ==> w == NoteWrite(notes, "")
  {
    match req
    case Get => NoteWrite(notes, "")
    case Post(form) =>
      var button := if "submit_button" in form then Some(form["submit_button"]) else None;
      if button == Some("add note") then AddNote(notes, uid, FormGet(form, "noteinput"), now, publicId)
      else if button == Some("import note") then ImportNote(notes, uid, FormGet(form, "noteid"))
      else NoteWrite(notes, "")
  }

  /** The notes page (behind login_required): perform the posted action, then
      list the notes of the session's user. */
  function NotesStep(db: Db, s: Session, req: NotesRequest, now: string, publicId: PublicIdDraw): (r: Outcome)
    requires WellFormed(s)
    ensures r.db.users == db.users && r.session == s
    ensures db.notes <= r.db.notes && |r.db.notes| <= |db.notes| + 1
  {
    if !s.loggedIn then Outcome(db, s, Redirect(ToLogin))
    else
      var uid := s.userid.value;
      var w := NotesWrite(db.notes, uid, req, now, publicId);
      Outcome(db.(notes := w.notes), s, NotesPage(Select(w.notes, OwnedBy(uid)), w.message))
  }

  /** The session of a user who has just logged in. */
  function LoggedInSession(userid: nat, username: string): Session {
    EmptySession.(loggedIn := true, userid := Some(userid), username := Some(username))
  }

  /** POST /login/: password check against the first user of that name, then
      the second factor. */
  function LoginStep(db: Db, s: Session, username: string, password: string, otp: string,
                     verifyPassword: (Hash, string) -> bool, verifyOtp: (string, string) -> bool): (r: Outcome)
    ensures r.db == db && r.view in {Redirect(ToIndex), LoginPage(WrongCredentials), LoginPage(NotConfigured), LoginPage(InvalidCode)}
    ensures r.view == Redirect(ToIndex) ==> r.session.loggedIn && r.session.username == Some(username)
    ensures r.view != Redirect(ToIndex) ==> r.session == s
  {
    var result := Select(db.users, Named(username));
    if |result| > 0 && verifyPassword(result[0].password, password) then
      assert result[0] in result;
      var otpSecret := result[0].otpSecret;
      if !Truthy(otpSecret) then Outcome(db, s, LoginPage(NotConfigured))
      else if !verifyOtp(otpSecret.value, otp) then Outcome(db, s, LoginPage(InvalidCode))
      else Outcome(db, LoggedInSession(result[0].id, result[0].username), Redirect(ToIndex))
    else Outcome(db, s, LoginPage(WrongCredentials))
  }

  /** POST /register/: check the password policy and that the name is unused,
      then keep the account pending in the session until its TOTP code is
      confirmed. `otpSecret` is the fresh pyotp.random_base32() and `hashed`
      the bcrypt hash of `password` drawn for this request. */
  function RegisterStep(db: Db, s: Session, username: string, password: string, otpSecret: string, hashed: Hash): (r: Outcome)
    ensures r.db == db && r.view.RegisterPage?
    ensures r.session.(pendingUsername := s.pendingUsername, pendingPassword := s.pendingPassword,
                       pendingOtpSecret := s.pendingOtpSecret) == s
    ensures r.view.showQr <==> r.view.userError == "" && r.view.passwordError == ""
  {
    var policy := ValidatePassword(password);
    var taken := |Select(db.users, Named(username))| > 0;
    var passwordError := if policy.Some? then Message(policy.value) else "";
    var userError := if taken then UsernameTaken else "";
    if policy.None? && !taken then
      var pending := s.(pendingUsername := Some(username), pendingPassword := Some(hashed),
                        pendingOtpSecret := Some(otpSecret));
      Outcome(db, pending, RegisterPage(true, userError, passwordError))
    else Outcome(db, s, RegisterPage(false, userError, passwordError))
  }

  /** POST /verify_2fa/: create the pending account once its TOTP code is
      confirmed. */
  function Verify2faStep(db: Db, s: Session, code: string, verifyOtp: (string, string) -> bool): (r: Outcome)
    ensures r.db.notes == db.notes && db.users <= r.db.users && |r.db.users| <= |db.users| + 1
    ensures |r.db.users| == |db.users| + 1 <==> r.session == EmptySession && r.view == Redirect(ToLogin)
  {
    if !(Truthy(s.pendingOtpSecret) && Truthy(s.pendingUsername) && Truthy(s.pendingPassword)) then
      Outcome(db, s, Redirect(ToRegister))
    else if verifyOtp(s.pendingOtpSecret.value, code) then
      var user := User(|db.users| + 1, s.pendingUsername.value, s.pendingPassword.value, Some(s.pendingOtpSecret.value));
      Outcome(db.(users := db.users + [user]), EmptySession, Redirect(ToLogin))
    else Outcome(db, s, OtpPage(InvalidCode))
  }

  /** GET /logout/ (behind login_required). */
  function LogoutStep(db: Db, s: Session): (r: Outcome)
    ensures r.db == db && !r.session.loggedIn
  {
    if !s.loggedIn then Outcome(db, s, Redirect(ToLogin))
    else Outcome(db, EmptySession, Redirect(ToIndex))
  }
}
