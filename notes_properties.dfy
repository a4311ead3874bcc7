/** What the notes page guarantees: the effect of each button on the notes
    table, the message it produces and the listing it shows. */
module NotesProperties {
  import opened Text
  import opened Tables
  import opened Store
  import opened Handlers

  /** The form a client posts for one of the two note buttons. */
  predicate Pressed(form: map<string, string>, button: string) {
    "submit_button" in form && form["submit_button"] == button
  }

  // ----- login_required -----

  /** Without a logged-in session the notes page and logout only redirect to
      the login page, and nothing changes. */
  lemma LoginRequiredGuard(db: Db, s: Session, req: NotesRequest, now: string, publicId: PublicIdDraw)
    requires WellFormed(s) && !s.loggedIn
    ensures NotesStep(db, s, req, now, publicId) == Outcome(db, s, Redirect(ToLogin))
    ensures LogoutStep(db, s) == Outcome(db, s, Redirect(ToLogin))
  {
  }

  // ----- the notes page -----

  /** The page lists exactly the rows of the new notes table that belong to
      the session's user, whatever was posted. */
  lemma ListingIsOwnNotes(db: Db, s: Session, req: NotesRequest, now: string, publicId: PublicIdDraw)
    requires WellFormed(s) && s.loggedIn
    ensures var r := NotesStep(db, s, req, now, publicId);
      && r.view.NotesPage?
      && r.session == s && r.db.users == db.users
      && (forall n :: n in r.view.listing <==> n in r.db.notes && n.assocUser == s.userid.value)
  {
  }

  /** A GET, or a POST without either button, writes nothing and lists the
      user's notes with no message. */
  lemma NotesReadOnly(db: Db, s: Session, req: NotesRequest, now: string, publicId: PublicIdDraw)
    requires WellFormed(s) && s.loggedIn && !ButtonPressed(req)
    ensures NotesStep(db, s, req, now, publicId)
              == Outcome(db, s, NotesPage(Select(db.notes, OwnedBy(s.userid.value)), ""))
  {
  }

  /** "add note": whitespace-only input and input longer than 500 characters
      after stripping are rejected with their messages and change nothing;
      anything else becomes exactly one new row of the session's user, which
      the listing shows after the user's earlier notes. */
  lemma {:induction false} AddNoteEffect(db: Db, s: Session, form: map<string, string>, now: string, publicId: PublicIdDraw)
    requires WellFormed(s) && s.loggedIn && Pressed(form, "add note")
    ensures var r := NotesStep(db, s, Post(form), now, publicId);
      var raw := FormGet(form, "noteinput");
      var uid := s.userid.value;
      && r.session == s && r.db.users == db.users
      && (AllSpace(raw) ==> r.db.notes == db.notes && r.view.importError == NoteEmpty)
      && (!AllSpace(raw) && |Strip(raw)| > MaxNoteLength ==>
            r.db.notes == db.notes && r.view.importError == NoteTooLong)
      && (!AllSpace(raw) && |Strip(raw)| <= MaxNoteLength ==>
            var added := Note(|db.notes| + 1, uid, now, Strip(raw), publicId);
            && r.db.notes == db.notes + [added]
            && r.view.importError == ""
            && 1000000000 <= added.publicId < 9999999999
            && r.view.listing == Select(db.notes, OwnedBy(uid)) + [added])
  {
    var raw := FormGet(form, "noteinput");
    var uid := s.userid.value;
    var text := Strip(raw);
    NotesStepAdd(db, s, form, now, publicId);
    StripEmptyIff(raw);
    if text != [] && |text| <= MaxNoteLength {
      var added := Note(|db.notes| + 1, uid, now, text, publicId);
      assert AddNote(db.notes, uid, raw, now, publicId) == NoteWrite(db.notes + [added], "");
      SelectAppend(db.notes, added, OwnedBy(uid));
    }
  }

  /** "import note": an ID that is not ten digits once stripped is rejected
      and changes nothing. */
  lemma ImportRejectsMalformedId(db: Db, s: Session, form: map<string, string>, now: string, publicId: PublicIdDraw)
    requires WellFormed(s) && s.loggedIn && Pressed(form, "import note")
    requires !IsTenDigits(Strip(FormGet(form, "noteid")))
    ensures var r := NotesStep(db, s, Post(form), now, publicId);
      r.db == db && r.session == s && r.view.importError == BadNoteId
  {
  }

  /** "import note": when row `i` is the first with the requested public ID
      and its text is at most 500 characters, exactly one row is appended: a
      copy owned by the session's user with the same date, text and public ID;
      the rows already there stay as they were. */
  lemma {:induction false} ImportCopiesFirstMatch(db: Db, s: Session, form: map<string, string>, now: string,
                                                 publicId: PublicIdDraw, i: nat)
    requires WellFormed(s) && s.loggedIn && Pressed(form, "import note")
    requires var id := Strip(FormGet(form, "noteid"));
      IsTenDigits(id) && IsFirst(db.notes, WithPublicId(DigitsValue(id)), i)
    requires |db.notes[i].note| <= MaxNoteLength
    ensures var r := NotesStep(db, s, Post(form), now, publicId);
      var src := db.notes[i];
      var copy := Note(|db.notes| + 1, s.userid.value, src.dateWritten, src.note, src.publicId);
      && r.db.notes == db.notes + [copy]
      && r.db.users == db.users && r.session == s
      && r.view.importError == ImportOk
      && r.view.listing == Select(db.notes, OwnedBy(s.userid.value)) + [copy]
  {
    var uid := s.userid.value;
    var src := db.notes[i];
    var copy := Note(|db.notes| + 1, uid, src.dateWritten, src.note, src.publicId);
    ImportFirstMatch(db.notes, uid, FormGet(form, "noteid"), i);
    NotesStepImportWrites(db, s, form, now, publicId, NoteWrite(db.notes + [copy], ImportOk));
    SelectAppend(db.notes, copy, OwnedBy(uid));
  }

  /** The notes-table half of ImportCopiesFirstMatch. */
  lemma ImportFirstMatch(notes: seq<Note>, uid: nat, input: string, i: nat)
    requires var id := Strip(input);
      IsTenDigits(id) && IsFirst(notes, WithPublicId(DigitsValue(id)), i)
    requires |notes[i].note| <= MaxNoteLength
    ensures var src := notes[i];
      ImportNote(notes, uid, input)
        == NoteWrite(notes + [Note(|notes| + 1, uid, src.dateWritten, src.note, src.publicId)], ImportOk)
  {
    var id := Strip(input);
    SelectHeadIsFirst(notes, WithPublicId(DigitsValue(id)), i);
  }

  /** The notes page with the "add note" button pressed. */
  lemma NotesStepAdd(db: Db, s: Session, form: map<string, string>, now: string, publicId: PublicIdDraw)
    requires WellFormed(s) && s.loggedIn && Pressed(form, "add note")
    ensures var w := AddNote(db.notes, s.userid.value, FormGet(form, "noteinput"), now, publicId);
      NotesStep(db, s, Post(form), now, publicId)
        == Outcome(db.(notes := w.notes), s, NotesPage(Select(w.notes, OwnedBy(s.userid.value)), w.message))
  {
  }

  /** The notes page with the "import note" button pressed. */
  lemma NotesStepImport(db: Db, s: Session, form: map<string, string>, now: string, publicId: PublicIdDraw)
    requires WellFormed(s) && s.loggedIn && Pressed(form, "import note")
    ensures var w := ImportNote(db.notes, s.userid.value, FormGet(form, "noteid"));
      NotesStep(db, s, Post(form), now, publicId)
        == Outcome(db.(notes := w.notes), s, NotesPage(Select(w.notes, OwnedBy(s.userid.value)), w.message))
  {
  }

  /** The notes page with the "import note" button pressed, once the write
      to the notes table is known. */
  lemma NotesStepImportWrites(db: Db, s: Session, form: map<string, string>, now: string, publicId: PublicIdDraw,
                              w: NoteWrite)
    requires WellFormed(s) && s.loggedIn && Pressed(form, "import note")
    requires ImportNote(db.notes, s.userid.value, FormGet(form, "noteid")) == w
    ensures NotesStep(db, s, Post(form), now, publicId)
              == Outcome(db.(notes := w.notes), s, NotesPage(Select(w.notes, OwnedBy(s.userid.value)), w.message))
  {
    NotesStepImport(db, s, form, now, publicId);
  }

  /** "import note": an ID no row has is reported and changes nothing. */
  lemma {:induction false} ImportUnknownIdUnchanged(db: Db, s: Session, form: map<string, string>, now: string,
                                                   publicId: PublicIdDraw)
    requires WellFormed(s) && s.loggedIn && Pressed(form, "import note")
    requires var id := Strip(FormGet(form, "noteid"));
      IsTenDigits(id) && forall n :: n in db.notes ==> n.publicId != DigitsValue(id)
    ensures var r := NotesStep(db, s, Post(form), now, publicId);
      r.db == db && r.session == s && r.view.importError == NoSuchNote
  {
    var input := FormGet(form, "noteid");
    var id := Strip(input);
    SelectNonEmptyIff(db.notes, WithPublicId(DigitsValue(id)));
    assert ImportNote(db.notes, s.userid.value, input) == NoteWrite(db.notes, NoSuchNote);
    NotesStepImportWrites(db, s, form, now, publicId, NoteWrite(db.notes, NoSuchNote));
  }

  /** "import note": when the first row with the ID holds more than 500
      characters, the import is refused and changes nothing. */
  lemma {:induction false} ImportTooLongUnchanged(db: Db, s: Session, form: map<string, string>, now: string,
                                                 publicId: PublicIdDraw, i: nat)
    requires WellFormed(s) && s.loggedIn && Pressed(form, "import note")
    requires var id := Strip(FormGet(form, "noteid"));
      IsTenDigits(id) && IsFirst(db.notes, WithPublicId(DigitsValue(id)), i)
    requires |db.notes[i].note| > MaxNoteLength
    ensures var r := NotesStep(db, s, Post(form), now, publicId);
      r.db == db && r.session == s && r.view.importError == ImportTooLong
  {
    var id := Strip(FormGet(form, "noteid"));
    SelectHeadIsFirst(db.notes, WithPublicId(DigitsValue(id)), i);
  }

  /** Importing a stored note by its ten-digit ID appends a copy of the first
      row carrying that ID, when the rows are all short enough. */
  lemma ImportByStoredId(notes: seq<Note>, uid: nat, k: nat)
    requires k < |notes| && 1000000000 <= notes[k].publicId < 9999999999
    requires forall n :: n in notes ==> |n.note| <= MaxNoteLength
    ensures var w := ImportNote(notes, uid, Decimal(notes[k].publicId, 10));
      && w.message == ImportOk
      && |w.notes| == |notes| + 1
      && w.notes[|notes|].publicId == notes[k].publicId
      && w.notes[|notes|].assocUser == uid
  {
    var x := notes[k].publicId;
    var id := Decimal(x, 10);
    assert Strip(id) == id by {
      assert !IsSpace(id[0]) && !IsSpace(id[9]);
    }
    var result := Select(notes, WithPublicId(x));
    assert notes[k] in result;
    assert result[0] in result;
  }

  /** Public IDs are not unique: importing any stored note by the ten-digit
      ID the page shows for it succeeds, and the copy carries the same public
      ID as the original. */
  lemma ImportDuplicatesPublicId(db: Db, s: Session, now: string, publicId: PublicIdDraw, k: nat)
    requires Valid(db, s) && s.loggedIn && k < |db.notes|
    ensures var form := map["submit_button" := "import note", "noteid" := Decimal(db.notes[k].publicId, 10)];
      var r := NotesStep(db, s, Post(form), now, publicId);
      && r.view.importError == ImportOk
      && |r.db.notes| == |db.notes| + 1
      && r.db.notes[|db.notes|].publicId == r.db.notes[k].publicId
      && r.db.notes[|db.notes|].assocUser == s.userid.value
  {
    var form := map["submit_button" := "import note", "noteid" := Decimal(db.notes[k].publicId, 10)];
    NotesStepImport(db, s, form, now, publicId);
    ImportByStoredId(db.notes, s.userid.value, k);
  }
}
