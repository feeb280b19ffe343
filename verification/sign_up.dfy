/**
 The sign-up form: its record of fields, the four password requirements shown
 under the password box, the order in which submission is refused, and what
 the outcome of the account request shows. The authentication service is an
 input: its answer to the request.
 */
module SignUp {
  import opened Text

  datatype SignUpForm = SignUpForm(name: string, email: string, password: string, confirmPassword: string)

  const EmptyForm: SignUpForm := SignUpForm("", "", "", "")

  datatype FormField = Name | Email | Password | ConfirmPassword

  function FieldValue(f: SignUpForm, field: FormField): string
  {
    match field
    case Name => f.name
    case Email => f.email
    case Password => f.password
    case ConfirmPassword => f.confirmPassword
  }

  /** `handleInputChange(field)`: the one field takes the typed value and every other field keeps its own. */
  function SetField(f: SignUpForm, field: FormField, value: string): (r: SignUpForm)
    ensures FieldValue(r, field) == value
    ensures forall other :: other != field ==> FieldValue(r, other) == FieldValue(f, other)
  {
    match field
    case Name => f.(name := value)
    case Email => f.(email := value)
    case Password => f.(password := value)
    case ConfirmPassword => f.(confirmPassword := value)
  }

  /** Typing the same value twice is typing it once. */
  lemma SetFieldIdempotent(f: SignUpForm, field: FormField, value: string)
    ensures SetField(SetField(f, field, value), field, value) == SetField(f, field, value)
  {
  }

  // ---------------------------------------------------------------------------
  // Password requirements

  /** `.length` counts UTF-16 code units: a character outside the Basic Multilingual Plane counts twice. */
  function Utf16Length(s: string): (n: nat)
    ensures |s| <= n <= 2 * |s|
  {
    if s == [] then 0 else (if s[0] as int > 0xFFFF then 2 else 1) + Utf16Length(s[1..])
  }

  predicate InBmp(s: string)
  {
    forall i :: 0 <= i < |s| ==> s[i] as int <= 0xFFFF
  }

  /** For text in the Basic Multilingual Plane the length is the number of characters. */
  lemma {:induction false} Utf16LengthBmp(s: string)
    requires InBmp(s)
    ensures Utf16Length(s) == |s|
  {
    if s != [] {
      assert InBmp(s[1..]) by {
        forall i | 0 <= i < |s[1..]| ensures s[1..][i] as int <= 0xFFFF {
          assert s[1..][i] == s[i + 1];
        }
      }
      Utf16LengthBmp(s[1..]);
    }
  }

  predicate IsUpper(c: char) { 'A' <= c <= 'Z' }
  predicate IsLower(c: char) { 'a' <= c <= 'z' }

  /** `/[A-Z]/.test`. */
  predicate HasUpper(s: string) { exists i :: 0 <= i < |s| && IsUpper(s[i]) }
  /** `/[a-z]/.test`. */
  predicate HasLower(s: string) { exists i :: 0 <= i < |s| && IsLower(s[i]) }
  /** `/\d/.test`: without the `u` flag `\d` is exactly 0-9. */
  predicate HasDigit(s: string) { exists i :: 0 <= i < |s| && IsDigit(s[i]) }

  const MinPasswordLength: nat := 8

  datatype Requirement = Requirement(met: bool, text: string)

  /** The checklist under the password box, in display order. */
  function PasswordRequirements(p: string): (r: seq<Requirement>)
    ensures |r| == 4
    ensures r[0].met <==> Utf16Length(p) >= MinPasswordLength
    ensures r[1].met <==> HasUpper(p)
    ensures r[2].met <==> HasLower(p)
    ensures r[3].met <==> HasDigit(p)
  {
    [ Requirement(Utf16Length(p) >= MinPasswordLength, "At least 8 characters"),
      Requirement(HasUpper(p), "One uppercase letter"),
      Requirement(HasLower(p), "One lowercase letter"),
      Requirement(HasDigit(p), "One number") ]
  }

  /** The checklist is only shown once something has been typed. */
  function ShownRequirements(p: string): (r: seq<Requirement>)
    ensures p == [] <==> r == []
    ensures p != [] ==> r == PasswordRequirements(p)
  {
    if p == [] then [] else PasswordRequirements(p)
  }

  /** All four requirements at once, in one pass over the password. */
  method ScanPassword(p: string) returns (longEnough: bool, upper: bool, lower: bool, digit: bool)
    ensures longEnough <==> Utf16Length(p) >= MinPasswordLength
    ensures upper <==> HasUpper(p)
    ensures lower <==> HasLower(p)
    ensures digit <==> HasDigit(p)
  {
    var units := 0;
    upper, lower, digit := false, false, false;
    var i := 0;
    while i < |p|
      invariant 0 <= i <= |p|
      invariant units + Utf16Length(p[i..]) == Utf16Length(p)
      invariant upper <==> exists j :: 0 <= j < i && IsUpper(p[j])
      invariant lower <==> exists j :: 0 <= j < i && IsLower(p[j])
      invariant digit <==> exists j :: 0 <= j < i && IsDigit(p[j])
    {
      assert p[i..][1..] == p[i + 1..];
      units := units + if p[i] as int > 0xFFFF then 2 else 1;
      upper := upper || IsUpper(p[i]);
      lower := lower || IsLower(p[i]);
      digit := digit || IsDigit(p[i]);
      i := i + 1;
    }
    longEnough := units >= MinPasswordLength;
  }

  // ---------------------------------------------------------------------------
  // Submission

  const PasswordMismatch: string := "Passwords don't match"
  const TermsRequired: string := "Please agree to the terms and conditions"

  /** What `handleSubmit` does before calling the service: refuse with a message, or send the account details. */
  datatype SubmitDecision =
    | Refused(message: string)
    | SendsRequest(email: string, password: string, name: string)

  /** The checks in order: passwords must match, then the terms must be agreed. The requirements are not checked. */
  function HandleSubmit(f: SignUpForm, agreed: bool): (r: SubmitDecision)
    ensures f.password != f.confirmPassword ==> r == Refused(PasswordMismatch)
    ensures f.password == f.confirmPassword && !agreed ==> r == Refused(TermsRequired)
    ensures r.SendsRequest? <==> f.password == f.confirmPassword && agreed
    ensures r.SendsRequest? ==> r.email == f.email && r.password == f.password && r.name == f.name
  {
    if f.password != f.confirmPassword then Refused(PasswordMismatch)
    else if !agreed then Refused(TermsRequired)
    else SendsRequest(f.email, f.password, f.name)
  }

  /** The two refusals never mix: mismatched passwords are reported as such whatever the terms box says. */
  lemma MismatchReportedFirst(f: SignUpForm, agreed: bool)
    requires f.password != f.confirmPassword
    ensures HandleSubmit(f, agreed) == HandleSubmit(f, !agreed)
    ensures HandleSubmit(f, agreed) != Refused(TermsRequired)
  {
  }

  /** Matching passwords and agreed terms send the request even when only one requirement of four is met. */
  lemma WeakPasswordStillSent()
    ensures var f := SignUpForm("Ada", "ada@example.com", "a", "a");
      && HandleSubmit(f, true).SendsRequest?
      && forall k :: 0 <= k < 4 ==> (PasswordRequirements(f.password)[k].met <==> k == 2)
  {
    assert IsLower("a"[0]);
  }

  /**
   `disabled={isLoading || !agreeToTerms}`: the button is disabled exactly while a
   request is pending or the terms box is unticked, and while it is enabled
   `handleSubmit` cannot give the terms refusal, so only a password mismatch
   stops the request there.
   */
  function SubmitDisabled(loading: bool, agreed: bool): (disabled: bool)
    ensures disabled ==> loading || !agreed
    ensures loading ==> disabled
    ensures !agreed ==> disabled
    ensures !disabled ==> forall f :: HandleSubmit(f, agreed) != Refused(TermsRequired)
    ensures !disabled ==> forall f :: HandleSubmit(f, agreed).SendsRequest? <==> f.password == f.confirmPassword
  {
    loading || !agreed
  }

  /**
   The browser's constraint validation, which runs before the submit event:
   all four inputs are `required`, so none may be empty, and the email input
   has `type="email"`, whose grammar is not modelled: `emailWellFormed` is
   the browser's verdict on it.
   */
  predicate ConstraintsMet(f: SignUpForm, emailWellFormed: bool)
  {
    f.name != [] && f.email != [] && emailWellFormed && f.password != [] && f.confirmPassword != []
  }

  /** Pressing the submit button: nothing when it is disabled or the browser blocks the form, else `handleSubmit`'s decision. */
  function PressSubmit(f: SignUpForm, loading: bool, agreed: bool, emailWellFormed: bool): (r: Option<SubmitDecision>)
    ensures r.Some? <==> !SubmitDisabled(loading, agreed) && ConstraintsMet(f, emailWellFormed)
    ensures r.Some? ==> r.value == HandleSubmit(f, agreed)
  {
    if SubmitDisabled(loading, agreed) || !ConstraintsMet(f, emailWellFormed) then None
    else Some(HandleSubmit(f, agreed))
  }

  /**
   From the page, a request is sent exactly when the button is enabled, no
   field is empty, the email is well formed and the passwords match; the
   terms refusal is never shown.
   */
  lemma PageSendsIff(f: SignUpForm, loading: bool, agreed: bool, emailWellFormed: bool)
    ensures var r := PressSubmit(f, loading, agreed, emailWellFormed);
      && (r.Some? && r.value.SendsRequest? <==>
            !loading && agreed && ConstraintsMet(f, emailWellFormed) && f.password == f.confirmPassword)
      && r != Some(Refused(TermsRequired))
  {
  }

  /** What the authentication service did with the request. */
  datatype AuthAnswer = AuthOk | AuthError(message: string) | AuthThrew

  datatype Toast = Toast(title: string, description: string, destructive: bool)

  /** The toast shown and where the page goes once the request settles; loading ends either way. */
  datatype SubmitEnd = SubmitEnd(toast: Toast, navigateTo: Option<string>)

  const AccountCreated: string := "Account created successfully! Please check your email to verify your account."
  const UnexpectedError: string := "An unexpected error occurred. Please try again."

  function FinishSignUp(answer: AuthAnswer): (r: SubmitEnd)
    ensures r.navigateTo.Some? <==> answer.AuthOk?
    ensures r.navigateTo.Some? ==> r.navigateTo.value == "/auth/signin"
    ensures r.toast.destructive <==> !answer.AuthOk?
    ensures answer.AuthError? ==> r.toast.description == answer.message
  {
    match answer
    case AuthOk => SubmitEnd(Toast("Success", AccountCreated, false), Some("/auth/signin"))
    case AuthError(m) => SubmitEnd(Toast("Error", m, true), None)
    case AuthThrew => SubmitEnd(Toast("Error", UnexpectedError, true), None)
  }
}
