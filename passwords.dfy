/** The password policy enforced at registration (validate_password). */
module Passwords {
  import opened Text
  import opened Wrappers

  const MinPasswordLength := 13

  /** The characters of the regular-expression class [!@#$%^&*(),.?\":{}|<>]. */
  const SpecialChars := "!@#$%^&*(),.?\":{}|<>"

  predicate IsSpecial(c: char) { c in SpecialChars }

  /** The character classes the policy searches for, in the order it checks them. */
  datatype CharClass = Uppercase | Lowercase | Digit | Special

  predicate InClass(c: char, cls: CharClass) {
    match cls
    case Uppercase => IsUpper(c)
    case Lowercase => IsLower(c)
    case Digit => IsDigit(c)
    case Special => IsSpecial(c)
  }

  /** `s` holds a character of class `cls`. */
  ghost predicate Contains(s: string, cls: CharClass) {
    exists i :: 0 <= i < |s| && InClass(s[i], cls)
  }

  /** re.search with a one-character class: scans `s` for a member of `cls`. */
  function Search(s: string, cls: CharClass): (found: bool)
    ensures found <==> Contains(s, cls)
  {
    if s == [] then false
    else InClass(s[0], cls) || Search(s[1..], cls)
  }

  /** What the policy demands of a password, independently of the order of the checks. */
  ghost predicate IsStrong(password: string) {
    |password| >= MinPasswordLength
    && Contains(password, Uppercase) && Contains(password, Lowercase)
    && Contains(password, Digit) && Contains(password, Special)
  }

  /** The check that rejected a password. */
  datatype PasswordError = TooShort | NoUppercase | NoLowercase | NoDigit | NoSpecial

  /** The message shown for each rejection. */
  function Message(e: PasswordError): string {
    match e
    case TooShort => "Password must be at least 13 characters"
    case NoUppercase => "Password must include at least one uppercase letter"
    case NoLowercase => "Password must include at least one lowercase letter"
    case NoDigit => "Password must include at least one number"
    case NoSpecial => "Password must include at least one special character"
  }

  /** validate_password: the first failing check, in the order length,
      uppercase, lowercase, digit, special character; None when all pass. */
  function ValidatePassword(password: string): (error: Option<PasswordError>)
    ensures error == None <==> IsStrong(password)
    ensures error == Some(TooShort) <==> |password| < MinPasswordLength
    ensures error == Some(NoUppercase) <==>
      |password| >= MinPasswordLength && !Contains(password, Uppercase)
    ensures error == Some(NoLowercase) <==>
      |password| >= MinPasswordLength && Contains(password, Uppercase) && !Contains(password, Lowercase)
    ensures error == Some(NoDigit) <==>
      |password| >= MinPasswordLength && Contains(password, Uppercase) && Contains(password, Lowercase)
      && !Contains(password, Digit)
    ensures error == Some(NoSpecial) <==>
      |password| >= MinPasswordLength && Contains(password, Uppercase) && Contains(password, Lowercase)
      && Contains(password, Digit) && !Contains(password, Special)
  {
    if |password| < MinPasswordLength then Some(TooShort)
    else if !Search(password, Uppercase) then Some(NoUppercase)
    else if !Search(password, Lowercase) then Some(NoLowercase)
    else if !Search(password, Digit) then Some(NoDigit)
    else if !Search(password, Special) then Some(NoSpecial)
    else None
  }
}
