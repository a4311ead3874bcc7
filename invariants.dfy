/** Every handler keeps the state invariant (Store.Valid): ids follow the
    AUTOINCREMENT order, every note belongs to an existing user, is non-empty
    and at most 500 characters long with a ten-digit public ID, and a
    logged-in session names an existing account. */
module Invariants {
  import opened Text
  import opened Tables
  import opened Store
  import opened Handlers
  import opened NotesProperties

  /** The freshly initialised database, with nobody logged in, is valid. */
  lemma SeedIsValid(adminHash: Hash, bernardoHash: Hash)
    ensures Valid(SeedDb(adminHash, bernardoHash), EmptySession)
  {
  }

  /** Appending a row that respects the invariant keeps it. */
  lemma AppendNoteKeepsValid(db: Db, n: Note)
    requires ValidDb(db)
    requires n.id == |db.notes| + 1 && 1 <= n.assocUser <= |db.users|
    requires 0 < |n.note| <= MaxNoteLength && 1000000000 <= n.publicId < 9999999999
    ensures ValidDb(db.(notes := db.notes + [n]))
  {
    var notes' := db.notes + [n];
    assert forall m :: m in notes' ==> m in db.notes || m == n;
  }

  lemma {:induction false} AddNoteKeepsValid(db: Db, uid: nat, input: string, now: string, publicId: PublicIdDraw)
    requires ValidDb(db) && 1 <= uid <= |db.users|
    ensures ValidDb(db.(notes := AddNote(db.notes, uid, input, now, publicId).notes))
  {
    var text := Strip(input);
    if text != [] && |text| <= MaxNoteLength {
      AppendNoteKeepsValid(db, Note(|db.notes| + 1, uid, now, text, publicId));
    }
  }

  lemma {:induction false} ImportNoteKeepsValid(db: Db, uid: nat, input: string)
    requires ValidDb(db) && 1 <= uid <= |db.users|
    ensures ValidDb(db.(notes := ImportNote(db.notes, uid, input).notes))
  {
    var id := Strip(input);
    if IsTenDigits(id) {
      var result := Select(db.notes, WithPublicId(DigitsValue(id)));
      if |result| > 0 {
        var row := result[0];
        assert row in result;
        if |row.note| <= MaxNoteLength {
          AppendNoteKeepsValid(db, Note(|db.notes| + 1, uid, row.dateWritten, row.note, row.publicId));
        }
      }
    }
  }

  lemma NotesWriteKeepsValid(db: Db, uid: nat, req: NotesRequest, now: string, publicId: PublicIdDraw)
    requires ValidDb(db) && 1 <= uid <= |db.users|
    ensures ValidDb(db.(notes := NotesWrite(db.notes, uid, req, now, publicId).notes))
  {
    if req.Post? {
      var form := req.form;
      if Pressed(form, "add note") {
        var raw := FormGet(form, "noteinput");
        AddNoteKeepsValid(db, uid, raw, now, publicId);
        assert NotesWrite(db.notes, uid, req, now, publicId) == AddNote(db.notes, uid, raw, now, publicId);
      } else if Pressed(form, "import note") {
        var raw := FormGet(form, "noteid");
        ImportNoteKeepsValid(db, uid, raw);
        assert NotesWrite(db.notes, uid, req, now, publicId) == ImportNote(db.notes, uid, raw);
      } else {
        assert NotesWrite(db.notes, uid, req, now, publicId).notes == db.notes;
      }
    }
  }

  /** The notes page keeps the invariant. */
  lemma NotesKeepsValid(db: Db, s: Session, req: NotesRequest, now: string, publicId: PublicIdDraw)
    requires Valid(db, s)
    ensures var r := NotesStep(db, s, req, now, publicId); Valid(r.db, r.session)
  {
    if s.loggedIn {
      var uid := s.userid.value;
      NotesWriteKeepsValid(db, uid, req, now, publicId);
      var w := NotesWrite(db.notes, uid, req, now, publicId);
      var db' := db.(notes := w.notes);
      assert Valid(db', s) by {
        assert db'.users == db.users;
      }
      assert NotesStep(db, s, req, now, publicId).db == db' ;
    }
  }

  /** Login keeps the invariant: the account it logs in is the row whose
      position matches its id. */
  lemma LoginKeepsValid(db: Db, s: Session, username: string, password: string, otp: string,
                        verifyPassword: (Hash, string) -> bool, verifyOtp: (string, string) -> bool)
    requires Valid(db, s)
    ensures var r := LoginStep(db, s, username, password, otp, verifyPassword, verifyOtp); Valid(r.db, r.session)
  {
    var result := Select(db.users, Named(username));
    if |result| > 0 {
      assert result[0] in result;
      var k :| 0 <= k < |db.users| && db.users[k] == result[0];
      assert db.users[result[0].id - 1] == result[0];
    }
  }

  /** Registration keeps the invariant. */
  lemma RegisterKeepsValid(db: Db, s: Session, username: string, password: string, otpSecret: string, hashed: Hash)
    requires Valid(db, s)
    ensures var r := RegisterStep(db, s, username, password, otpSecret, hashed); Valid(r.db, r.session)
  {
    var r := RegisterStep(db, s, username, password, otpSecret, hashed);
    var t := r.session;
    assert t.(pendingUsername := s.pendingUsername, pendingPassword := s.pendingPassword,
              pendingOtpSecret := s.pendingOtpSecret) == s;
    assert t.loggedIn == s.loggedIn && t.userid == s.userid && t.username == s.username;
  }

  /** TOTP confirmation keeps the invariant. */
  lemma Verify2faKeepsValid(db: Db, s: Session, code: string, verifyOtp: (string, string) -> bool)
    requires Valid(db, s)
    ensures var r := Verify2faStep(db, s, code, verifyOtp); Valid(r.db, r.session)
  {
  }

  /** Logout keeps the invariant. */
  lemma LogoutKeepsValid(db: Db, s: Session)
    requires Valid(db, s)
    ensures var r := LogoutStep(db, s); Valid(r.db, r.session)
  {
  }

  /** Under the invariant the "Imported note is too long" branch is dead:
      every stored note already fits. */
  lemma {:induction false} ImportNeverTooLong(db: Db, uid: nat, input: string)
    requires ValidDb(db)
    ensures ImportNote(db.notes, uid, input).message != ImportTooLong
  {
    var id := Strip(input);
    if IsTenDigits(id) {
      var result := Select(db.notes, WithPublicId(DigitsValue(id)));
      if |result| > 0 {
        assert result[0] in result;
      }
    }
  }
}
