/**
 * The login, registration and item forms and their validators. A form is
 * accepted when it was submitted and every field's validator chain passes.
 * A field's chain stops at the first "required" failure; the other
 * validators all run and each failure adds one message. Validators only
 * read the user table.
 */
module Forms {
  import opened Wrappers
  import opened Strings
  import opened Models

  datatype Field = EmailField | PasswordField | UsernameField | Password2Field | NameField | PriceField

  datatype FormError =
    | Required          // "This field is required." (or, for the price, "Please enter a whole number.")
    | InvalidEmail      // the email syntax check failed
    | UsernameTaken     // 'Username is already taken'
    | UsernameTooShort  // 'Username must be at least 4 characters long'
    | UsernameNotAlnum  // 'Username may only contain letters and numbers'
    | EmailTaken        // 'Email is already taken'
    | WeakPassword      // the single combined password-strength message
    | PasswordMismatch  // the confirmation does not equal the password
    | NameTooShort      // the item name is shorter than 3 characters

  datatype FieldError = FieldError(field: Field, error: FormError)

  /** The submitted fields; `submitted` is whether the request was a form submission. */
  datatype LoginForm = LoginForm(submitted: bool, email: string, password: string, rememberMe: bool)
  datatype RegisterForm = RegisterForm(submitted: bool, username: string, email: string, password: string, password2: string)
  /** `price` is None when the field is missing or is not a whole number. */
  datatype ItemForm = ItemForm(submitted: bool, name: string, price: Option<int>)

  /** The five independent strength checks; each flag is true when its check fails. */
  datatype PasswordCheck = PasswordCheck(
    lengthError: bool, digitError: bool, uppercaseError: bool, lowercaseError: bool, symbolError: bool)

  function CheckPasswordStrength(p: string): (r: PasswordCheck)
    ensures r.lengthError <==> |p| < 8
    ensures r.digitError <==> forall i :: 0 <= i < |p| ==> !IsDigit(p[i])
    ensures r.uppercaseError <==> forall i :: 0 <= i < |p| ==> !IsUpper(p[i])
    ensures r.lowercaseError <==> forall i :: 0 <= i < |p| ==> !IsLower(p[i])
    ensures r.symbolError <==> forall i :: 0 <= i < |p| ==> IsWordChar(p[i])
  {
    PasswordCheck(
      |p| < 8,
      ReSearch(p, Digits).None?,
      ReSearch(p, UpperCase).None?,
      ReSearch(p, LowerCase).None?,
      ReSearch(p, NonWord).None?)
  }

  /** A password is strong when none of the five checks fails. */
  predicate PasswordStrong(p: string)
  {
    var c := CheckPasswordStrength(p);
    !(c.lengthError || c.digitError || c.uppercaseError || c.lowercaseError || c.symbolError)
  }

  /** `validate_password`: one combined error whenever any of the five checks fails. */
  function ValidatePassword(p: string): (r: Option<FormError>)
    ensures r.None? <==>
      && |p| >= 8
      && (exists i :: 0 <= i < |p| && IsDigit(p[i]))
      && (exists i :: 0 <= i < |p| && IsUpper(p[i]))
      && (exists i :: 0 <= i < |p| && IsLower(p[i]))
      && (exists i :: 0 <= i < |p| && !IsWordChar(p[i]))
    ensures r.Some? ==> r.value == WeakPassword
  {
    if PasswordStrong(p) then None else Some(WeakPassword)
  }

  /** `validate_username`: taken, then too short, then not alphanumeric; the first failure is reported. */
  function ValidateUsername(users: seq<User>, name: string): (r: Option<FormError>)
    ensures r == Some(UsernameTaken) <==> exists u :: u in users && u.username == name
    ensures r == Some(UsernameTooShort) <==> (forall u :: u in users ==> u.username != name) && |name| < 4
    ensures r == Some(UsernameNotAlnum) <==>
      (forall u :: u in users ==> u.username != name) && |name| >= 4 && !IsAlnumString(name)
    ensures r.None? <==> (forall u :: u in users ==> u.username != name) && |name| >= 4 && IsAlnumString(name)
  {
    if FindByUsername(users, name).Some? then Some(UsernameTaken)
    else if |name| < 4 then Some(UsernameTooShort)
    else if !IsAlnumString(name) then Some(UsernameNotAlnum)
    else None
  }

  /** `validate_email`: taken when a stored email equals the lower-cased input. */
  function ValidateEmail(users: seq<User>, email: string): (r: Option<FormError>)
    ensures r.Some? <==> exists u :: u in users && u.email == Lower(email)
    ensures r.Some? ==> r.value == EmailTaken
  {
    if FindByEmail(users, Lower(email)).Some? then Some(EmailTaken) else None
  }

  /** The errors of one field: `Required` alone when it is empty, else those of its other validators. */
  function FieldErrors(f: Field, value: string, rest: seq<FormError>): (r: seq<FieldError>)
    ensures value == "" ==> r == [FieldError(f, Required)]
    ensures value != "" ==> |r| == |rest| && forall i :: 0 <= i < |r| ==> r[i] == FieldError(f, rest[i])
    ensures r == [] <==> value != "" && rest == []
    ensures forall x :: x in r ==> x.field == f
  {
    if value == "" then [FieldError(f, Required)]
    else seq(|rest|, i requires 0 <= i < |rest| => FieldError(f, rest[i]))
  }

  function OptionToSeq(o: Option<FormError>): (r: seq<FormError>)
    ensures o.None? ==> r == []
    ensures o.Some? ==> r == [o.value]
  {
    if o.Some? then [o.value] else []
  }

  /** `LoginForm` validation: both fields required, and the email well formed. */
  function LoginErrors(emailSyntax: string -> bool, form: LoginForm): (r: seq<FieldError>)
    ensures r == [] <==> form.email != "" && emailSyntax(form.email) && form.password != ""
  {
    FieldErrors(EmailField, form.email, if emailSyntax(form.email) then [] else [InvalidEmail])
    + FieldErrors(PasswordField, form.password, [])
  }

  /** The rules a registration must meet, each field's validators in turn. */
  ghost predicate RegistrationAcceptable(users: seq<User>, emailSyntax: string -> bool, form: RegisterForm)
  {
    && form.username != "" && (forall u :: u in users ==> u.username != form.username)
    && |form.username| >= 4 && IsAlnumString(form.username)
    && form.email != "" && emailSyntax(form.email)
    && (forall u :: u in users ==> u.email != Lower(form.email))
    && form.password != "" && PasswordStrong(form.password)
    && form.password2 != "" && form.password2 == form.password
  }

  function UsernameErrors(users: seq<User>, name: string): (r: seq<FieldError>)
    ensures r == [] <==> name != "" && ValidateUsername(users, name).None?
    ensures forall x :: x in r ==> x.field == UsernameField
  {
    FieldErrors(UsernameField, name, OptionToSeq(ValidateUsername(users, name)))
  }

  function EmailErrors(users: seq<User>, emailSyntax: string -> bool, email: string): (r: seq<FieldError>)
    ensures r == [] <==> email != "" && emailSyntax(email) && ValidateEmail(users, email).None?
    ensures forall x :: x in r ==> x.field == EmailField
  {
    FieldErrors(EmailField, email, (if emailSyntax(email) then [] else [InvalidEmail]) + OptionToSeq(ValidateEmail(users, email)))
  }

  function PasswordErrors(password: string): (r: seq<FieldError>)
    ensures r == [] <==> password != "" && ValidatePassword(password).None?
    ensures forall x :: x in r ==> x.field == PasswordField
  {
    FieldErrors(PasswordField, password, OptionToSeq(ValidatePassword(password)))
  }

  /** The `EqualTo('password')` rule on the confirmation field. */
  function Password2Errors(password: string, password2: string): (r: seq<FieldError>)
    ensures r == [] <==> password2 != "" && password2 == password
    ensures forall x :: x in r ==> x.field == Password2Field
  {
    FieldErrors(Password2Field, password2, if password2 == password then [] else [PasswordMismatch])
  }

  /** `RegisterForm` validation over the current user table. */
  function RegisterErrors(users: seq<User>, emailSyntax: string -> bool, form: RegisterForm): (r: seq<FieldError>)
    ensures r == [] <==> RegistrationAcceptable(users, emailSyntax, form)
    ensures forall e :: e in r ==> e.field in {UsernameField, EmailField, PasswordField, Password2Field}
  {
    UsernameErrors(users, form.username)
    + EmailErrors(users, emailSyntax, form.email)
    + PasswordErrors(form.password)
    + Password2Errors(form.password, form.password2)
  }

  /** The item name: `DataRequired()`, then `Length(min=3)`. */
  function NameErrors(name: string): (r: seq<FieldError>)
    ensures r == [] <==> |name| >= 3
    ensures name == "" ==> r == [FieldError(NameField, Required)]
    ensures 0 < |name| < 3 ==> r == [FieldError(NameField, NameTooShort)]
  {
    FieldErrors(NameField, name, if |name| < 3 then [NameTooShort] else [])
  }

  /**
   * `ItemForm` validation: a name of at least 3 characters and a price.
   * A price of 0 is refused like a missing one, because the "required"
   * check treats every false-like value as absent.
   */
  function ItemErrors(form: ItemForm): (r: seq<FieldError>)
    ensures r == [] <==> |form.name| >= 3 && form.price.Some? && form.price.value != 0
    ensures FieldError(PriceField, Required) in r <==> form.price.None? || form.price.value == 0
    ensures FieldError(NameField, NameTooShort) in r <==> 0 < |form.name| < 3
  {
    NameErrors(form.name)
    + (if form.price.None? || form.price.value == 0 then [FieldError(PriceField, Required)] else [])
  }

  /** "Abcdef1!" meets all five checks; "Abc ef1x" too, since a space is a `\W` character. */
  lemma StrongPasswordExamples()
    ensures ValidatePassword("Abcdef1!").None?
    ensures ValidatePassword("Abc ef1x").None?
  {
    var strong := "Abcdef1!";
    assert IsDigit(strong[6]) && IsUpper(strong[0]) && IsLower(strong[1]) && !IsWordChar(strong[7]);
    var spaced := "Abc ef1x";
    assert IsDigit(spaced[6]) && IsUpper(spaced[0]) && IsLower(spaced[1]) && !IsWordChar(spaced[3]);
  }

  /** "Abcdefg1" and "Abc_ef1x" fail: letters, digits and the underscore are all word characters. */
  lemma NoSymbolPasswordExamples()
    ensures ValidatePassword("Abcdefg1") == Some(WeakPassword)
    ensures ValidatePassword("Abc_ef1x") == Some(WeakPassword)
  {
    var plain := "Abcdefg1";
    assert forall i :: 0 <= i < |plain| ==> IsWordChar(plain[i]);
    var underscored := "Abc_ef1x";
    assert forall i :: 0 <= i < |underscored| ==> IsWordChar(underscored[i]);
  }

  /** "abcdefgh" fails: it has no digit, no upper-case letter and no symbol. */
  lemma LowercaseOnlyPasswordExample()
    ensures CheckPasswordStrength("abcdefgh") == PasswordCheck(false, true, true, false, true)
  {
  }

  /** "ab1" is too short; "ab12" passes the length and character rules when it is not taken. */
  lemma UsernameExamples(users: seq<User>)
    requires forall u :: u in users ==> u.username != "ab1" && u.username != "ab12"
    ensures ValidateUsername(users, "ab1") == Some(UsernameTooShort)
    ensures ValidateUsername(users, "ab12").None?
  {
  }

  /**
   * Email uniqueness is case-insensitive over a table whose emails are
   * stored lower-cased: an input is taken exactly when it lower-cases to
   * the lower-cased form of a stored email.
   */
  lemma EmailTakenCaseInsensitive(users: seq<User>, email: string)
    requires forall u :: u in users ==> Lower(u.email) == u.email
    ensures ValidateEmail(users, email).Some? <==> exists u :: u in users && Lower(u.email) == Lower(email)
  {
  }

  /** An accepted registration names a fresh username and a fresh lower-cased email, with a strong password. */
  lemma AcceptedRegistrationIsFresh(users: seq<User>, emailSyntax: string -> bool, form: RegisterForm)
    requires RegisterErrors(users, emailSyntax, form) == []
    ensures FindByUsername(users, form.username).None?
    ensures FindByEmail(users, Lower(form.email)).None?
    ensures ValidatePassword(form.password).None?
    ensures form.password2 == form.password
  {
  }

  /** "A@B.com" and "a@b.com" lower-case to the same stored email. */
  lemma CaseVariantEmailsCollide()
    ensures Lower("A@B.com") == "a@b.com"
    ensures Lower("a@b.com") == "a@b.com"
  {
  }

  /** Once "A@B.com" is registered, "a@b.com" is refused as taken, whatever the username. */
  lemma SecondRegistrationSameEmail(users: seq<User>, u: User, emailSyntax: string -> bool, form: RegisterForm)
    requires u in users && u.email == Lower("A@B.com")
    requires form.email == "a@b.com"
    ensures ValidateEmail(users, form.email) == Some(EmailTaken)
    ensures RegisterErrors(users, emailSyntax, form) != []
  {
    CaseVariantEmailsCollide();
  }
}
