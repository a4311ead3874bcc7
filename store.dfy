/** The application's state: the users and notes tables of the SQLite
    database, and the per-client Flask session. */
module Store {
  import opened Wrappers

  /** A bcrypt hash, as the bytes bcrypt.hashpw returns. */
  type Hash = seq<bv8>

  /** A row of the users table: id, username, bcrypt hash, TOTP secret (NULL
      for the seeded accounts). */
  datatype User = User(id: nat, username: string, password: Hash, otpSecret: Option<string>)

  /** A row of the notes table. */
  datatype Note = Note(id: nat, assocUser: nat, dateWritten: string, note: string, publicId: int)

  datatype Db = Db(users: seq<User>, notes: seq<Note>)

  /** The session dictionary: each key is either absent (None) or holds a value. */
  datatype Session = Session(
    loggedIn: bool,
    userid: Option<nat>,
    username: Option<string>,
    pendingUsername: Option<string>,
    pendingPassword: Option<Hash>,
    pendingOtpSecret: Option<string>)

  /** The session after session.clear(). */
  const EmptySession := Session(false, None, None, None, None, None)

  /** The longest note the notes page stores or imports. */
  const MaxNoteLength := 500

  /** A value of random.randrange(1000000000, 9999999999): the public ID of a new note. */
  type PublicIdDraw = n: int | 1000000000 <= n < 9999999999 witness 1000000000

  /** What the handlers rely on in the session: a logged-in session carries a user id. */
  predicate WellFormed(s: Session) {
    s.loggedIn ==> s.userid.Some?
  }

  /** The database invariant. Row ids are the AUTOINCREMENT ids 1, 2, ... (no
      row is ever deleted); every note belongs to an existing user, is
      non-empty, at most MaxNoteLength long, and has a ten-digit public ID.
      Neither usernames nor public IDs are required to be unique. */
  ghost predicate ValidDb(db: Db) {
    && (forall i :: 0 <= i < |db.users| ==> db.users[i].id == i + 1)
    && (forall i :: 0 <= i < |db.notes| ==> db.notes[i].id == i + 1)
    && (forall n :: n in db.notes ==> 1 <= n.assocUser <= |db.users|)
    && (forall n :: n in db.notes ==> 0 < |n.note| <= MaxNoteLength)
    && (forall n :: n in db.notes ==> 1000000000 <= n.publicId < 9999999999)
  }

  /** The whole-state invariant: a logged-in session names an existing user
      by id and by username. */
  ghost predicate Valid(db: Db, s: Session) {
    && ValidDb(db)
    && WellFormed(s)
    && (s.loggedIn ==>
          1 <= s.userid.value <= |db.users|
          && s.username == Some(db.users[s.userid.value - 1].username))
  }

  /** The database init_db creates: two accounts without a TOTP secret and two
      notes of "bernardo". The bcrypt hashes depend on a random salt and are
      parameters. */
  function SeedDb(adminHash: Hash, bernardoHash: Hash): (db: Db)
    ensures ValidDb(db)
    ensures |db.users| == 2 && |db.notes| == 2
    ensures forall n :: n in db.notes ==> db.users[n.assocUser - 1].username == "bernardo"
  {
    Db([User(1, "admin", adminHash, None), User(2, "bernardo", bernardoHash, None)],
       [Note(1, 2, "1993-09-23 10:10:10", "hello my friend", 1234567890),
        Note(2, 2, "1993-09-23 12:10:10", "i want lunch pls", 1234567891)])
  }
}
