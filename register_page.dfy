/** The sign-up form (client/src/pages/Register.jsx): the field checks run
    before anything is sent, the per-field error messages, clearing a field's
    message as the user types into it, and turning the server's list of
    validation errors into per-field messages. */
module RegisterPage {
  import opened Wrappers
  import Formatters

  const UsernameKey: string := "username"
  const EmailKey: string := "email"
  const PasswordKey: string := "password"
  const ConfirmPasswordKey: string := "confirmPassword"

  const UsernameTooShort: string := "Username must be at least 3 characters"
  const UsernameBadChars: string := "Username can only contain letters, numbers, and underscores"
  const InvalidEmail: string := "Please enter a valid email address"
  const PasswordTooShort: string := "Password must be at least 6 characters"
  const PasswordsDiffer: string := "Passwords do not match"
  const RegistrationFailed: string := "Registration failed. Please try again."

  /** The four inputs of the form. */
  datatype Field = Username | Email | Password | ConfirmPassword

  function KeyOf(f: Field): string {
    match f
    case Username => UsernameKey
    case Email => EmailKey
    case Password => PasswordKey
    case ConfirmPassword => ConfirmPasswordKey
  }

  datatype RegisterForm = RegisterForm(username: string, email: string, password: string, confirmPassword: string)

  /** What is sent to the server: the form without `confirmPassword`. */
  datatype RegisterData = RegisterData(username: string, email: string, password: string)

  function WithField(form: RegisterForm, f: Field, value: string): RegisterForm {
    match f
    case Username => form.(username := value)
    case Email => form.(email := value)
    case Password => form.(password := value)
    case ConfirmPassword => form.(confirmPassword := value)
  }

  /** A character of the class `[a-zA-Z0-9_]`. */
  predicate UsernameChar(c: char) {
    'a' <= c <= 'z' || 'A' <= c <= 'Z' || '0' <= c <= '9' || c == '_'
  }

  predicate AllUsernameChars(s: string) {
    forall i :: 0 <= i < |s| ==> UsernameChar(s[i])
  }

  /** A form on which none of the four checks fails. */
  predicate FormValid(form: RegisterForm) {
    && |form.username| >= 3 && AllUsernameChars(form.username)
    && Formatters.IsValidEmail(form.email)
    && |form.password| >= 6
    && form.password == form.confirmPassword
  }

  /** `validateForm`: one message per failing field. The length message for
      the user name takes precedence over the character-class message, the
      e-mail test is the pattern of `isValidEmail`, and no other key is ever
      set. */
  method ValidateForm(form: RegisterForm) returns (errors: map<string, string>)
    ensures FormErrorsOf(form, errors)
    ensures errors == map[] <==> FormValid(form)
  {
    errors := map[];
    if |form.username| < 3 {
      errors := errors[UsernameKey := UsernameTooShort];
    } else if !AllUsernameChars(form.username) {
      errors := errors[UsernameKey := UsernameBadChars];
    }
    if !Formatters.IsValidEmail(form.email) {
      errors := errors[EmailKey := InvalidEmail];
    }
    if |form.password| < 6 {
      errors := errors[PasswordKey := PasswordTooShort];
    }
    if form.password != form.confirmPassword {
      errors := errors[ConfirmPasswordKey := PasswordsDiffer];
    }
    assert errors == map[] <==> FormValid(form) by {
      if errors == map[] {
        assert UsernameKey !in errors && EmailKey !in errors;
        assert PasswordKey !in errors && ConfirmPasswordKey !in errors;
      }
    }
  }

  /** `errors` holds one message per failing check of `form` and nothing else. */
  ghost predicate FormErrorsOf(form: RegisterForm, errors: map<string, string>) {
    && errors.Keys <= {UsernameKey, EmailKey, PasswordKey, ConfirmPasswordKey}
    && (UsernameKey in errors <==> |form.username| < 3 || !AllUsernameChars(form.username))
    && (|form.username| < 3 ==> errors[UsernameKey] == UsernameTooShort)
    && (|form.username| >= 3 && !AllUsernameChars(form.username) ==> errors[UsernameKey] == UsernameBadChars)
    && (EmailKey in errors <==> !Formatters.IsValidEmail(form.email))
    && (EmailKey in errors ==> errors[EmailKey] == InvalidEmail)
    && (PasswordKey in errors <==> |form.password| < 6)
    && (PasswordKey in errors ==> errors[PasswordKey] == PasswordTooShort)
    && (ConfirmPasswordKey in errors <==> form.password != form.confirmPassword)
    && (ConfirmPasswordKey in errors ==> errors[ConfirmPasswordKey] == PasswordsDiffer)
  }

  /** The checks leave no choice: a form has exactly one map of messages. */
  lemma FormErrorsUnique(form: RegisterForm, a: map<string, string>, b: map<string, string>)
    requires FormErrorsOf(form, a) && FormErrorsOf(form, b)
    ensures a == b
  {
    assert a.Keys == b.Keys by {
      forall k | k in a ensures k in b {
        assert k in {UsernameKey, EmailKey, PasswordKey, ConfirmPasswordKey};
      }
      forall k | k in b ensures k in a {
        assert k in {UsernameKey, EmailKey, PasswordKey, ConfirmPasswordKey};
      }
    }
    forall k | k in a ensures a[k] == b[k] {
      assert k in {UsernameKey, EmailKey, PasswordKey, ConfirmPasswordKey};
    }
  }

  /** `m` has one entry per reported path, holding the message of the last
      entry with that path. */
  ghost predicate BackendErrorsOf(errs: seq<BackendError>, m: map<string, string>) {
    && m.Keys == (set i | 0 <= i < |errs| :: errs[i].path)
    && forall p :: p in m ==>
         exists i :: 0 <= i < |errs| && errs[i].path == p && m[p] == errs[i].msg && LastWithPath(errs, p, i)
  }

  /** The server's list determines the messages shown: last entry wins. */
  lemma BackendErrorsUnique(errs: seq<BackendError>, a: map<string, string>, b: map<string, string>)
    requires BackendErrorsOf(errs, a) && BackendErrorsOf(errs, b)
    ensures a == b
  {
    forall p | p in a ensures a[p] == b[p] {
      var i :| 0 <= i < |errs| && errs[i].path == p && a[p] == errs[i].msg && LastWithPath(errs, p, i);
      var j :| 0 <= j < |errs| && errs[j].path == p && b[p] == errs[j].msg && LastWithPath(errs, p, j);
      assert !(i < j) && !(j < i);
    }
  }

  /** One entry of the server's `errors` array. */
  datatype BackendError = BackendError(path: string, msg: string)

  /** The backend mapping: every reported path gets a message, and it is the
      message of the LAST entry with that path. */
  method MapBackendErrors(errs: seq<BackendError>) returns (m: map<string, string>)
    ensures BackendErrorsOf(errs, m)
  {
    m := map[];
    for n := 0 to |errs|
      invariant m.Keys == set i | 0 <= i < n :: errs[i].path
      invariant forall p :: p in m ==>
        exists i :: 0 <= i < n && errs[i].path == p && m[p] == errs[i].msg && LastWithPath(errs[..n], p, i)
    {
      m := m[errs[n].path := errs[n].msg];
      forall p | p in m
        ensures exists i :: 0 <= i < n + 1 && errs[i].path == p && m[p] == errs[i].msg && LastWithPath(errs[..n + 1], p, i)
      {
        if p == errs[n].path {
          assert LastWithPath(errs[..n + 1], p, n);
        } else {
          var i :| 0 <= i < n && errs[i].path == p && m[p] == errs[i].msg && LastWithPath(errs[..n], p, i);
          assert LastWithPath(errs[..n + 1], p, i);
        }
      }
    }
    assert errs[..|errs|] == errs;
  }

  /** Entry `i` is the last one reporting `path`. */
  predicate LastWithPath(errs: seq<BackendError>, path: string, i: nat) {
    i < |errs| && forall j :: i < j < |errs| ==> errs[j].path != path
  }

  /** How a `register` request ends: it succeeds, the server rejects the data
      with per-field errors, or it fails with an optional message (`""` when
      the response carries none). */
  datatype RegisterOutcome = Registered | Rejected(errors: seq<BackendError>) | Failed(message: string)

  /** The message a field shows: a field shows nothing when it has no entry or
      an empty one. */
  function Shown(errors: map<string, string>, key: string): string {
    if key in errors then errors[key] else ""
  }

  class Register {
    var form: RegisterForm
    var fieldErrors: map<string, string>
    var error: string
    var loading: bool

    constructor ()
      ensures form == RegisterForm("", "", "", "")
      ensures fieldErrors == map[] && error == "" && !loading
    {
      form := RegisterForm("", "", "", "");
      fieldErrors := map[];
      error := "";
      loading := false;
    }

    /** `handleChange`: stores the value and clears that field's message only;
        every other field's message is unchanged. */
    method HandleChange(f: Field, value: string)
      modifies this
      ensures form == WithField(old(form), f, value)
      ensures Shown(fieldErrors, KeyOf(f)) == ""
      ensures forall k :: k != KeyOf(f) ==> Shown(fieldErrors, k) == Shown(old(fieldErrors), k)
      ensures error == old(error) && loading == old(loading)
    {
      form := WithField(form, f, value);
      if Shown(fieldErrors, KeyOf(f)) != "" {
        fieldErrors := fieldErrors[KeyOf(f) := ""];
      }
    }

    /** `handleSubmit`: nothing is sent unless every check passes, and then
        the data sent leaves out `confirmPassword`. The request's outcome is
        a parameter; `home` says whether the page navigates to the home page. */
    method HandleSubmit(outcome: RegisterOutcome) returns (sent: Option<RegisterData>, home: bool)
      modifies this
      ensures form == old(form)
      ensures loading == (old(loading) && !FormValid(form))
      ensures sent.Some? <==> FormValid(form)
      ensures sent.Some? ==> sent.value == RegisterData(form.username, form.email, form.password)
      ensures !FormValid(form) ==> error == "" && fieldErrors != map[] && FormErrorsOf(form, fieldErrors)
      ensures home <==> FormValid(form) && outcome.Registered?
      ensures FormValid(form) && outcome.Registered? ==> error == "" && fieldErrors == map[]
      ensures FormValid(form) && outcome.Rejected? ==>
        error == "" && BackendErrorsOf(outcome.errors, fieldErrors)
      ensures FormValid(form) && outcome.Failed? ==>
        fieldErrors == map[] &&
        error == MessageOr(outcome.message, RegistrationFailed)
    {
      error := "";
      fieldErrors := map[];
      home := false;
      var errors := ValidateForm(form);
      assert |errors| == 0 <==> errors == map[];
      if |errors| > 0 {
        fieldErrors := errors;
        return None, false;
      }
      loading := true;
      sent := Some(RegisterData(form.username, form.email, form.password));
      match outcome {
        case Registered =>
          home := true;
        case Rejected(errs) =>
          fieldErrors := MapBackendErrors(errs);
        case Failed(message) =>
          error := MessageOr(message, RegistrationFailed);
      }
      loading := false;
    }
  }
}
