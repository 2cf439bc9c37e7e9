/**
 * `CustomRegistrationForm` of users/forms.py: the email-uniqueness check, the
 * password policy, the confirm-password rule, and the order in which the
 * form runs them.
 */
module Registration {
  import opened Wrappers
  import opened Text

  /** A regular-expression character class `[...]`. */
  datatype CharClass = Range(lo: char, hi: char) | OneOf(chars: string)

  predicate InClass(c: char, cls: CharClass) {
    match cls
    case Range(lo, hi) => lo <= c <= hi
    case OneOf(cs) => c in cs
  }

  /** Some character of `s` is in the class. */
  ghost predicate HasClass(s: string, cls: CharClass) {
    exists i :: 0 <= i < |s| && InClass(s[i], cls)
  }

  /** `re.search(r'[...]', s)` succeeds: a left-to-right scan for a character of the class. */
  function Search(s: string, cls: CharClass): (found: bool)
    ensures found <==> HasClass(s, cls)
  {
    if |s| == 0 then false
    else if InClass(s[0], cls) then true
    else
      var rest := Search(s[1..], cls);
      assert forall i :: 1 <= i < |s| ==> s[i] == s[1..][i - 1];
      rest
  }

  const Uppercase := Range('A', 'Z')
  const Lowercase := Range('a', 'z')
  const Digit := Range('0', '9')
  const Special := OneOf("@#$%^&+=")
  const MinPasswordLength := 8

  /** The checks of `clean_password`, in the order it runs them. */
  datatype PasswordError = TooShort | NoUppercase | NoLowercase | NoDigit | NoSpecial

  function Rank(e: PasswordError): nat {
    match e
    case TooShort => 0
    case NoUppercase => 1
    case NoLowercase => 2
    case NoDigit => 3
    case NoSpecial => 4
  }

  function Message(e: PasswordError): string {
    match e
    case TooShort => "Password must be at least 8 characters long."
    case NoUppercase => "Password must contain at least one uppercase letter."
    case NoLowercase => "Password must contain at least one lowercase letter."
    case NoDigit => "Password must contain at least one number."
    case NoSpecial => "Password must contain at least one special character (@, #, $, %, ^, &, +, =)."
  }

  /** The password policy as a single condition. */
  ghost predicate MeetsPolicy(p: string) {
    |p| >= MinPasswordLength && HasClass(p, Uppercase) && HasClass(p, Lowercase)
    && HasClass(p, Digit) && HasClass(p, Special)
  }

  /** The checks in the order `clean_password` runs them. */
  const Checks: seq<PasswordError> := [TooShort, NoUppercase, NoLowercase, NoDigit, NoSpecial]

  /** Whether password `p` fails check `e`. */
  predicate Fails(p: string, e: PasswordError) {
    match e
    case TooShort => |p| < MinPasswordLength
    case NoUppercase => !Search(p, Uppercase)
    case NoLowercase => !Search(p, Lowercase)
    case NoDigit => !Search(p, Digit)
    case NoSpecial => !Search(p, Special)
  }

  ghost predicate InRankOrder(errs: seq<PasswordError>) {
    forall i, j :: 0 <= i < j < |errs| ==> Rank(errs[i]) < Rank(errs[j])
  }

  /** Runs every check in `checks`, keeping the failed ones in order. */
  function FailedChecks(p: string, checks: seq<PasswordError>): seq<PasswordError> {
    if |checks| == 0 then []
    else Kept(p, checks[0]) + FailedChecks(p, checks[1..])
  }

  /** What one check contributes. */
  function Kept(p: string, e: PasswordError): seq<PasswordError> {
    if Fails(p, e) then [e] else []
  }

  /** Exactly the failed checks are kept; when `checks` are in rank order, so are the kept ones. */
  lemma {:induction false} FailedChecksMeaning(p: string, checks: seq<PasswordError>)
    ensures forall e :: e in FailedChecks(p, checks) <==> e in checks && Fails(p, e)
    ensures InRankOrder(checks) ==> InRankOrder(FailedChecks(p, checks))
  {
    if |checks| > 0 {
      var rest := FailedChecks(p, checks[1..]);
      FailedChecksMeaning(p, checks[1..]);
      assert checks == [checks[0]] + checks[1..];
      if Fails(p, checks[0]) {
        assert forall k :: 0 <= k < |rest| ==> rest[k] in checks[1..];
        assert InRankOrder(checks) ==> forall e :: e in checks[1..] ==> Rank(checks[0]) < Rank(e);
      }
    }
  }

  /**
   * Every check runs, and each failed one contributes its error, in the fixed
   * order length, upper case, lower case, digit, special character.
   */
  function PasswordErrors(p: string): (errs: seq<PasswordError>)
    ensures TooShort in errs <==> |p| < MinPasswordLength
    ensures NoUppercase in errs <==> !HasClass(p, Uppercase)
    ensures NoLowercase in errs <==> !HasClass(p, Lowercase)
    ensures NoDigit in errs <==> !HasClass(p, Digit)
    ensures NoSpecial in errs <==> !HasClass(p, Special)
    ensures forall i, j :: 0 <= i < j < |errs| ==> Rank(errs[i]) < Rank(errs[j])
  {
    assert InRankOrder(Checks);
    FailedChecksMeaning(p, Checks);
    FailedChecks(p, Checks)
  }

  /** `clean_password`: the password itself when it meets the policy, else all its errors. */
  function CleanPassword(p: string): (r: Result<string, seq<PasswordError>>)
    ensures r.Success? <==> MeetsPolicy(p)
    ensures r.Success? ==> r.value == p
    ensures r.Failure? ==> r.error != [] && r.error == PasswordErrors(p)
  {
    var errs := PasswordErrors(p);
    assert errs == [] <==> MeetsPolicy(p) by {
      FailedChecksMeaning(p, Checks);
      if errs != [] {
        assert errs[0] in errs;
      }
    }
    if errs != [] then Failure(errs) else Success(p)
  }

  /** Which checks "abc" fails. */
  lemma AbcFails(p: string)
    requires p == "abc"
    ensures Fails(p, TooShort) && Fails(p, NoUppercase) && !Fails(p, NoLowercase)
    ensures Fails(p, NoDigit) && Fails(p, NoSpecial)
  {

  }

  /** Failed checks do not stop the others: "abc" is too short and lacks three classes. */
  lemma ShortPasswordCollectsEverything(p: string)
    requires p == "abc"
    ensures PasswordErrors(p) == [TooShort, NoUppercase, NoDigit, NoSpecial]
  {
    AbcFails(p);
    AllButLowercase(p);
  }

  lemma AllButLowercase(p: string)
    requires Fails(p, TooShort) && Fails(p, NoUppercase) && !Fails(p, NoLowercase)
    requires Fails(p, NoDigit) && Fails(p, NoSpecial)
    ensures PasswordErrors(p) == [TooShort, NoUppercase, NoDigit, NoSpecial]
  {
    UnrollFive(p, TooShort, NoUppercase, NoLowercase, NoDigit, NoSpecial);
    DropThird(TooShort, NoUppercase, NoLowercase, NoDigit, NoSpecial);
  }

  /** Running five checks is running each of them in turn. */
  lemma UnrollFive(p: string, a: PasswordError, b: PasswordError, c: PasswordError, d: PasswordError, e: PasswordError)
    ensures FailedChecks(p, [a, b, c, d, e]) ==
            Kept(p, a) + (Kept(p, b) + (Kept(p, c) + (Kept(p, d) + Kept(p, e))))
  {
    assert [a, b, c, d, e][1..] == [b, c, d, e];
    assert [b, c, d, e][1..] == [c, d, e];
    assert [c, d, e][1..] == [d, e];
    assert [d, e][1..] == [e];
    assert [e][1..] == [];
    assert FailedChecks(p, [e]) == Kept(p, e);
    assert FailedChecks(p, [d, e]) == Kept(p, d) + Kept(p, e);
    assert FailedChecks(p, [c, d, e]) == Kept(p, c) + (Kept(p, d) + Kept(p, e));
    assert FailedChecks(p, [b, c, d, e]) == Kept(p, b) + (Kept(p, c) + (Kept(p, d) + Kept(p, e)));
  }

  lemma DropThird<T>(a: T, b: T, c: T, d: T, e: T)
    ensures [a] + ([b] + ([] + ([d] + [e]))) == [a, b, d, e]
  {
  }

  /** `clean_email` raises this when a user already has the address. */
  datatype EmailError = EmailExists

  /** `clean_email`: rejected iff some existing user has exactly this email; otherwise returned as is. */
  function CleanEmail(existing: set<string>, email: string): (r: Result<string, EmailError>)
    ensures r.Failure? <==> email in existing
    ensures r.Success? ==> r.value == email
  {
    if email in existing then Failure(EmailExists) else Success(email)
  }

  /** A value Python treats as true: present and non-empty. */
  predicate Truthy(v: Option<string>) {
    v.Some? && v.value != ""
  }

  /**
   * `clean`: the mismatch error is raised exactly when both values are present,
   * non-empty and different.
   */
  function PasswordsMismatch(password: Option<string>, confirm: Option<string>): (mismatch: bool)
    ensures mismatch <==> Truthy(password) && Truthy(confirm) && password != confirm
  {
    match (password, confirm)
    case (Some(p), Some(c)) => p != "" && c != "" && p != c
    case _ => false
  }

  const RequiredMessage := "This field is required."
  const EmailExistsMessage := "Email already exists"
  const MismatchMessage := "Password and Confirm Password does not match"
  const NullCharactersMessage := "Null characters are not allowed."

  /** The submitted values of the fields that carry logic. */
  datatype SignUp = SignUp(email: string, password: string, confirmPassword: string)

  /** The form's error lists, per field and for the form as a whole. */
  datatype FormErrors = FormErrors(
    email: seq<string>,
    password: seq<string>,
    confirmPassword: seq<string>,
    nonField: seq<string>)

  function Messages(errs: seq<PasswordError>): (ms: seq<string>)
    ensures |ms| == |errs|
    ensures forall i :: 0 <= i < |errs| ==> ms[i] == Message(errs[i])
  {
    seq(|errs|, i requires 0 <= i < |errs| => Message(errs[i]))
  }

  /**
   * The `password` field after stripping: required, then the null-character
   * validator, then `clean_password`.
   */
  function PasswordField(password: string): (r: Result<string, seq<string>>)
    ensures r.Success? <==> MeetsPolicy(password) && !HasNull(password)
    ensures r.Success? ==> r.value == password
    ensures r.Failure? ==>
              r.error == (if password == "" then [RequiredMessage]
                          else if HasNull(password) then [NullCharactersMessage]
                          else Messages(PasswordErrors(password)))
  {
    if password == "" then Failure([RequiredMessage])
    else if HasNull(password) then Failure([NullCharactersMessage])
    else match CleanPassword(password)
      case Success(p) => Success(p)
      case Failure(errs) => Failure(Messages(errs))
  }

  /**
   * The `confirm_password` field after stripping: required, then the
   * null-character validator, with no check of its own.
   */
  function ConfirmField(confirm: string): (r: Result<string, seq<string>>)
    ensures r.Success? <==> confirm != "" && !HasNull(confirm)
    ensures r.Success? ==> r.value == confirm
    ensures r.Failure? ==> r.error == (if confirm == "" then [RequiredMessage] else [NullCharactersMessage])
  {
    if confirm == "" then Failure([RequiredMessage])
    else if HasNull(confirm) then Failure([NullCharactersMessage])
    else Success(confirm)
  }

  /**
   * The form on values already stripped: the email is checked against
   * `existing`, the password fields are cleaned, and `clean` sees only the
   * values that cleaned.
   */
  function ValidateStripped(existing: set<string>, email: string, password: string, confirm: string)
    : (r: Result<SignUp, FormErrors>)
    ensures r.Success? <==>
              email !in existing && MeetsPolicy(password) && !HasNull(password) && confirm != "" && password == confirm
    ensures r.Success? ==> r.value == SignUp(email, password, confirm)
    ensures r.Failure? ==> r.error.email == (if email in existing then [EmailExistsMessage] else [])
    ensures r.Failure? ==>
              r.error.password == (if password == "" then [RequiredMessage]
                                   else if HasNull(password) then [NullCharactersMessage]
                                   else Messages(PasswordErrors(password)))
    ensures r.Failure? ==>
              r.error.confirmPassword == (if confirm == "" then [RequiredMessage]
                                          else if HasNull(confirm) then [NullCharactersMessage] else [])
    ensures r.Failure? ==>
              r.error.nonField == (if MeetsPolicy(password) && !HasNull(password) && confirm != "" && !HasNull(confirm)
                                      && password != confirm
                                   then [MismatchMessage] else [])
    ensures r.Failure? && r.error.nonField != [] ==> r.error.password == [] && r.error.confirmPassword == []
  {
    var emailResult := CleanEmail(existing, email);
    var passwordResult := PasswordField(password);
    var confirmResult := ConfirmField(confirm);
    var cleanedPassword := if passwordResult.Success? then Some(passwordResult.value) else None;
    var cleanedConfirm := if confirmResult.Success? then Some(confirmResult.value) else None;
    var mismatch := PasswordsMismatch(cleanedPassword, cleanedConfirm);
    if emailResult.Success? && passwordResult.Success? && confirmResult.Success? && !mismatch then
      Success(SignUp(email, password, confirm))
    else
      Failure(FormErrors(
        if emailResult.Failure? then [EmailExistsMessage] else [],
        if passwordResult.Failure? then passwordResult.error else [],
        if confirmResult.Failure? then confirmResult.error else [],
        if mismatch then [MismatchMessage] else []))
  }

  /** A password holding a null character is refused before `clean_password`, whatever else it satisfies. */
  lemma NullPasswordRejected(existing: set<string>, email: string, password: string)
    requires HasNull(password)
    ensures ValidateStripped(existing, email, password, password).Failure?
    ensures ValidateStripped(existing, email, password, password).error.password == [NullCharactersMessage]
    ensures ValidateStripped(existing, email, password, password).error.confirmPassword == [NullCharactersMessage]
    ensures ValidateStripped(existing, email, password, password).error.nonField == []
  {
  }

  /**
   * `form.is_valid()`: each field is stripped; the required password fields
   * reject an empty value, then one holding a null character, before their
   * `clean_<field>` runs; `clean` then sees
   * only the values that cleaned successfully. `existing` is the set of emails
   * of the users already registered.
   */
  function Validate(existing: set<string>, data: SignUp): (r: Result<SignUp, FormErrors>)
    ensures r.Success? <==>
              Strip(data.email) !in existing && MeetsPolicy(Strip(data.password)) && !HasNull(Strip(data.password))
              && Strip(data.confirmPassword) != "" && Strip(data.password) == Strip(data.confirmPassword)
    ensures r.Success? ==> r.value == SignUp(Strip(data.email), Strip(data.password), Strip(data.confirmPassword))
    ensures r.Failure? ==>
              r.error.email == (if Strip(data.email) in existing then [EmailExistsMessage] else [])
    ensures r.Failure? ==>
              r.error.password == (if Strip(data.password) == "" then [RequiredMessage]
                                   else if HasNull(Strip(data.password)) then [NullCharactersMessage]
                                   else Messages(PasswordErrors(Strip(data.password))))
    ensures r.Failure? ==>
              r.error.confirmPassword == (if Strip(data.confirmPassword) == "" then [RequiredMessage]
                                          else if HasNull(Strip(data.confirmPassword)) then [NullCharactersMessage]
                                          else [])
    ensures r.Failure? ==>
              r.error.nonField == (if MeetsPolicy(Strip(data.password)) && !HasNull(Strip(data.password))
                                      && Strip(data.confirmPassword) != "" && !HasNull(Strip(data.confirmPassword))
                                      && Strip(data.password) != Strip(data.confirmPassword)
                                   then [MismatchMessage] else [])
    ensures r.Failure? && r.error.nonField != [] ==> r.error.password == [] && r.error.confirmPassword == []
  {
    ValidateStripped(existing, Strip(data.email), Strip(data.password), Strip(data.confirmPassword))
  }
}
