/** The running application as one object: the two tables and the session of
    the client being served, updated in place by the request handlers the
    way app.py updates the database and the Flask session. Each handler is
    proved to do exactly what the matching function of Handlers describes,
    and to keep the state invariant. */
module Server {
  import opened Text
  import opened Wrappers
  import opened Tables
  import opened Passwords
  import opened Store
  import opened Handlers
  import opened Invariants
  import opened NotesProperties

  class NotesApp {
    var users: seq<User>
    var notes: seq<Note>
    var session: Session

    ghost function State(): Db
      reads this
    {
      Db(users, notes)
    }

    ghost predicate Valid()
      reads this
    {
      Store.Valid(State(), session)
    }

    /** init_db, then a client with an empty session. */
    constructor (adminHash: Hash, bernardoHash: Hash)
      ensures Valid()
      ensures State() == SeedDb(adminHash, bernardoHash) && session == EmptySession
    {
      var seed := SeedDb(adminHash, bernardoHash);
      users := seed.users;
      notes := seed.notes;
      session := EmptySession;
    }

    /** /notes/ behind login_required. */
    method Notes(req: NotesRequest, now: string, publicId: PublicIdDraw) returns (view: View)
      requires Valid()
      modifies this
      ensures Valid()
      ensures Outcome(State(), session, view) == NotesStep(old(State()), old(session), req, now, publicId)
      ensures users == old(users) && session == old(session)
      ensures old(notes) <= notes && |notes| <= |old(notes)| + 1
    {
      if !session.loggedIn {
        view := Redirect(ToLogin);
      } else {
        var uid := session.userid.value;
        var importError := "";
        if req.Post? {
          var button := if "submit_button" in req.form then Some(req.form["submit_button"]) else None;
          if button == Some("add note") {
            NotesStepAdd(State(), session, req.form, now, publicId);
            importError := AddNoteFrom(uid, FormGet(req.form, "noteinput"), now, publicId);
          } else if button == Some("import note") {
            NotesStepImport(State(), session, req.form, now, publicId);
            importError := ImportNoteFrom(uid, FormGet(req.form, "noteid"));
          }
        }
        view := NotesPage(Select(notes, OwnedBy(uid)), importError);
      }
      NotesKeepsValid(old(State()), old(session), req, now, publicId);
    }

    /** The "add note" branch of /notes/. */
    method AddNoteFrom(uid: nat, input: string, now: string, publicId: PublicIdDraw) returns (importError: string)
      modifies this`notes
      ensures NoteWrite(notes, importError) == AddNote(old(notes), uid, input, now, publicId)
    {
      importError := "";
      var noteInput := Strip(input);
      if noteInput == [] {
        importError := NoteEmpty;
      } else if |noteInput| > MaxNoteLength {
        importError := NoteTooLong;
      } else {
        notes := notes + [Note(|notes| + 1, uid, now, noteInput, publicId)];
      }
    }

    /** The "import note" branch of /notes/. */
    method ImportNoteFrom(uid: nat, input: string) returns (importError: string)
      modifies this`notes
      ensures NoteWrite(notes, importError) == ImportNote(old(notes), uid, input)
    {
      importError := "";
      var noteId := Strip(input);
      if !IsTenDigits(noteId) {
        importError := BadNoteId;
      } else {
        var result := Select(notes, WithPublicId(DigitsValue(noteId)));
        if |result| > 0 {
          var row := result[0];
          if |row.note| > MaxNoteLength {
            importError := ImportTooLong;
          } else {
            notes := notes + [Note(|notes| + 1, uid, row.dateWritten, row.note, row.publicId)];
            importError := ImportOk;
          }
        } else {
          importError := NoSuchNote;
        }
      }
    }

    /** POST /login/ */
    method Login(username: string, password: string, otp: string,
                 verifyPassword: (Hash, string) -> bool, verifyOtp: (string, string) -> bool) returns (view: View)
      requires Valid()
      modifies this
      ensures Valid()
      ensures Outcome(State(), session, view)
                == LoginStep(old(State()), old(session), username, password, otp, verifyPassword, verifyOtp)
      ensures users == old(users) && notes == old(notes)
    {
      var error := "";
      var success := false;
      var result := Select(users, Named(username));
      if |result| > 0 && verifyPassword(result[0].password, password) {
        var otpSecret := result[0].otpSecret;
        if !Truthy(otpSecret) {
          error := NotConfigured;
        } else if !verifyOtp(otpSecret.value, otp) {
          error := InvalidCode;
        } else {
          session := EmptySession;
          session := session.(loggedIn := true);
          session := session.(userid := Some(result[0].id));
          session := session.(username := Some(result[0].username));
          success := true;
        }
      } else {
        error := WrongCredentials;
      }
      view := if success then Redirect(ToIndex) else LoginPage(error);
      LoginKeepsValid(old(State()), old(session), username, password, otp, verifyPassword, verifyOtp);
    }

    /** POST /register/ */
    method Register(username: string, password: string, otpSecret: string, hashed: Hash) returns (view: View)
      requires Valid()
      modifies this
      ensures Valid()
      ensures Outcome(State(), session, view)
                == RegisterStep(old(State()), old(session), username, password, otpSecret, hashed)
      ensures users == old(users) && notes == old(notes)
    {
      var errored := false;
      var userError := "";
      var passwordError := "";
      var errorMsg := ValidatePassword(password);
      if errorMsg.Some? {
        errored := true;
        passwordError := Message(errorMsg.value);
      }
      if |Select(users, Named(username))| > 0 {
        errored := true;
        userError := UsernameTaken;
      }
      if !errored {
        session := session.(pendingUsername := Some(username));
        session := session.(pendingPassword := Some(hashed));
        session := session.(pendingOtpSecret := Some(otpSecret));
      }
      view := RegisterPage(!errored, userError, passwordError);
      RegisterKeepsValid(old(State()), old(session), username, password, otpSecret, hashed);
    }

    /** POST /verify_2fa/ */
    method Verify2fa(code: string, verifyOtp: (string, string) -> bool) returns (view: View)
      requires Valid()
      modifies this
      ensures Valid()
      ensures Outcome(State(), session, view) == Verify2faStep(old(State()), old(session), code, verifyOtp)
      ensures notes == old(notes) && old(users) <= users && |users| <= |old(users)| + 1
    {
      var otpSecret := session.pendingOtpSecret;
      var username := session.pendingUsername;
      var hashedPassword := session.pendingPassword;
      if !(Truthy(otpSecret) && Truthy(username) && Truthy(hashedPassword)) {
        view := Redirect(ToRegister);
      } else if verifyOtp(otpSecret.value, code) {
        users := users + [User(|users| + 1, username.value, hashedPassword.value, Some(otpSecret.value))];
        session := EmptySession;
        view := Redirect(ToLogin);
      } else {
        view := OtpPage(InvalidCode);
      }
      Verify2faKeepsValid(old(State()), old(session), code, verifyOtp);
    }

    /** /logout/ behind login_required. */
    method Logout() returns (view: View)
      requires Valid()
      modifies this
      ensures Valid()
      ensures Outcome(State(), session, view) == LogoutStep(old(State()), old(session))
      ensures users == old(users) && notes == old(notes)
    {
      if !session.loggedIn {
        view := Redirect(ToLogin);
      } else {
        session := EmptySession;
        view := Redirect(ToIndex);
      }
      LogoutKeepsValid(old(State()), old(session));
    }
  }
}
