/** What login, registration, TOTP confirmation and logout guarantee: when the
    session changes and how, which message a failure produces, and that only
    a confirmed registration writes the users table. Usernames are not
    assumed unique anywhere. */
module AuthProperties {
  import opened Wrappers
  import opened Tables
  import opened Passwords
  import opened Store
  import opened Handlers

  /** No row of the users table has this name. */
  ghost predicate Unused(db: Db, username: string) {
    forall u :: u in db.users ==> u.username != username
  }

  // ----- login -----

  /** Login decides on the first row `i` with the given name alone: it logs
      that row's account in exactly when the password, a configured TOTP
      secret and the code all check out; otherwise the session is left alone
      and exactly one of the three messages is shown. */
  lemma {:induction false} LoginEffect(db: Db, s: Session, username: string, password: string, otp: string,
                                       verifyPassword: (Hash, string) -> bool, verifyOtp: (string, string) -> bool, i: nat)
    requires IsFirst(db.users, Named(username), i)
    ensures var r := LoginStep(db, s, username, password, otp, verifyPassword, verifyOtp);
      var u := db.users[i];
      && r.db == db
      && (r.view == Redirect(ToIndex) <==>
            verifyPassword(u.password, password) && Truthy(u.otpSecret) && verifyOtp(u.otpSecret.value, otp))
      && (r.view == Redirect(ToIndex) ==> r.session == LoggedInSession(u.id, username))
      && (!verifyPassword(u.password, password) ==> r.session == s && r.view == LoginPage(WrongCredentials))
      && (verifyPassword(u.password, password) && !Truthy(u.otpSecret) ==>
            r.session == s && r.view == LoginPage(NotConfigured))
      && (verifyPassword(u.password, password) && Truthy(u.otpSecret) && !verifyOtp(u.otpSecret.value, otp) ==>
            r.session == s && r.view == LoginPage(InvalidCode))
  {
    SelectHeadIsFirst(db.users, Named(username), i);
  }

  /** Login with a name no account has fails like a wrong password. */
  lemma {:induction false} LoginUnknownUser(db: Db, s: Session, username: string, password: string, otp: string,
                                            verifyPassword: (Hash, string) -> bool, verifyOtp: (string, string) -> bool)
    requires Unused(db, username)
    ensures LoginStep(db, s, username, password, otp, verifyPassword, verifyOtp)
              == Outcome(db, s, LoginPage(WrongCredentials))
  {
    SelectNonEmptyIff(db.users, Named(username));
  }

  // ----- registration -----

  /** Registration never writes the users table. It keeps the account
      pending in the session (and shows the QR code) exactly when the
      password meets the policy and no account has the name; otherwise the
      session is unchanged. Each failed check shows its own message, and both
      can show at once. */
  lemma {:induction false} RegisterEffect(db: Db, s: Session, username: string, password: string,
                                          otpSecret: string, hashed: Hash)
    ensures var r := RegisterStep(db, s, username, password, otpSecret, hashed);
      && r.db == db
      && r.view.RegisterPage?
      && (r.view.showQr <==> IsStrong(password) && Unused(db, username))
      && (r.view.showQr ==>
            r.session == s.(pendingUsername := Some(username), pendingPassword := Some(hashed),
                            pendingOtpSecret := Some(otpSecret)))
      && (!r.view.showQr ==> r.session == s)
      && (r.view.passwordError == if IsStrong(password) then "" else Message(ValidatePassword(password).value))
      && (r.view.userError == if Unused(db, username) then "" else UsernameTaken)
  {
    SelectNonEmptyIff(db.users, Named(username));
  }

  // ----- TOTP confirmation -----

  /** Confirmation does nothing but redirect to registration unless all three
      pending fields are present and non-empty; it appends exactly one user,
      with the pending name, hash and secret, and clears the session only when
      the code verifies; otherwise the pending account stays in the session.
      The name is not checked again. */
  lemma Verify2faEffect(db: Db, s: Session, code: string, verifyOtp: (string, string) -> bool)
    ensures var r := Verify2faStep(db, s, code, verifyOtp);
      var pending := Truthy(s.pendingOtpSecret) && Truthy(s.pendingUsername) && Truthy(s.pendingPassword);
      && (!pending ==> r == Outcome(db, s, Redirect(ToRegister)))
      && (pending && verifyOtp(s.pendingOtpSecret.value, code) ==>
            && r.db.notes == db.notes
            && r.db.users == db.users + [User(|db.users| + 1, s.pendingUsername.value, s.pendingPassword.value,
                                              Some(s.pendingOtpSecret.value))]
            && r.session == EmptySession
            && r.view == Redirect(ToLogin))
      && (pending && !verifyOtp(s.pendingOtpSecret.value, code) ==> r == Outcome(db, s, OtpPage(InvalidCode)))
  {
  }

  // ----- whole flows -----

  /** Registering, confirming the code and logging in with the same password
      and a valid code logs the new account in, as the row appended last. */
  lemma {:induction false} SignUpThenLogIn(db: Db, s: Session, username: string, password: string, otpSecret: string,
                                           hashed: Hash, code: string, otp: string,
                                           verifyPassword: (Hash, string) -> bool, verifyOtp: (string, string) -> bool)
    requires IsStrong(password) && Unused(db, username)
    requires username != [] && otpSecret != [] && hashed != []
    requires verifyPassword(hashed, password) && verifyOtp(otpSecret, code) && verifyOtp(otpSecret, otp)
    ensures var a := RegisterStep(db, s, username, password, otpSecret, hashed);
      var b := Verify2faStep(a.db, a.session, code, verifyOtp);
      var c := LoginStep(b.db, b.session, username, password, otp, verifyPassword, verifyOtp);
      && a.view.RegisterPage? && a.view.showQr
      && b.view == Redirect(ToLogin)
      && c.view == Redirect(ToIndex)
      && c.session == LoggedInSession(|db.users| + 1, username)
  {
    var a := RegisterStep(db, s, username, password, otpSecret, hashed);
    RegisterEffect(db, s, username, password, otpSecret, hashed);
    var user := User(|db.users| + 1, username, hashed, Some(otpSecret));
    var b := Verify2faStep(a.db, a.session, code, verifyOtp);
    assert b.db.users == db.users + [user];
    assert IsFirst(b.db.users, Named(username), |db.users|);
    LoginEffect(b.db, b.session, username, password, otp, verifyPassword, verifyOtp, |db.users|);
  }

  /** Usernames are not unique: two clients that both register an unused name
      before either confirms its code both get an account of that name, and
      login then only ever considers the first of the two. */
  lemma {:induction false} DuplicateUsernames(db: Db, s1: Session, s2: Session, username: string, password: string,
                                              secret1: string, secret2: string, hash1: Hash, hash2: Hash,
                                              code: string, verifyOtp: (string, string) -> bool)
    requires IsStrong(password) && Unused(db, username)
    requires username != [] && secret1 != [] && secret2 != [] && hash1 != [] && hash2 != []
    requires verifyOtp(secret1, code) && verifyOtp(secret2, code)
    ensures var a1 := RegisterStep(db, s1, username, password, secret1, hash1);
      var a2 := RegisterStep(a1.db, s2, username, password, secret2, hash2);
      var b1 := Verify2faStep(a2.db, a1.session, code, verifyOtp);
      var b2 := Verify2faStep(b1.db, a2.session, code, verifyOtp);
      && |b2.db.users| == |db.users| + 2
      && b2.db.users[|db.users|].username == username
      && b2.db.users[|db.users| + 1].username == username
      && IsFirst(b2.db.users, Named(username), |db.users|)
  {
    var u1 := User(|db.users| + 1, username, hash1, Some(secret1));
    var u2 := User(|db.users| + 2, username, hash2, Some(secret2));
    var p1 := s1.(pendingUsername := Some(username), pendingPassword := Some(hash1), pendingOtpSecret := Some(secret1));
    var p2 := s2.(pendingUsername := Some(username), pendingPassword := Some(hash2), pendingOtpSecret := Some(secret2));
    RegisterAccepted(db, s1, username, password, secret1, hash1);
    RegisterAccepted(db, s2, username, password, secret2, hash2);
    ConfirmAccepted(db, p1, code, verifyOtp);
    var db1 := db.(users := db.users + [u1]);
    ConfirmAccepted(db1, p2, code, verifyOtp);
    assert db1.users + [u2] == db.users + [u1, u2];
  }

  /** Registration of a strong password under an unused name. */
  lemma RegisterAccepted(db: Db, s: Session, username: string, password: string, otpSecret: string, hashed: Hash)
    requires IsStrong(password) && Unused(db, username)
    ensures RegisterStep(db, s, username, password, otpSecret, hashed)
              == Outcome(db, s.(pendingUsername := Some(username), pendingPassword := Some(hashed),
                                pendingOtpSecret := Some(otpSecret)),
                         RegisterPage(true, "", ""))
  {
    RegisterEffect(db, s, username, password, otpSecret, hashed);
  }

  /** Confirmation of a complete pending registration with a valid code. */
  lemma ConfirmAccepted(db: Db, s: Session, code: string, verifyOtp: (string, string) -> bool)
    requires Truthy(s.pendingOtpSecret) && Truthy(s.pendingUsername) && Truthy(s.pendingPassword)
    requires verifyOtp(s.pendingOtpSecret.value, code)
    ensures Verify2faStep(db, s, code, verifyOtp)
              == Outcome(db.(users := db.users + [User(|db.users| + 1, s.pendingUsername.value, s.pendingPassword.value,
                                                       Some(s.pendingOtpSecret.value))]),
                         EmptySession, Redirect(ToLogin))
  {
  }

  // ----- logout -----

  /** Logout clears the whole session, pending registration included. */
  lemma LogoutEffect(db: Db, s: Session)
    requires s.loggedIn
    ensures LogoutStep(db, s) == Outcome(db, EmptySession, Redirect(ToIndex))
  {
  }
}
